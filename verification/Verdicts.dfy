/** What a vote decides and what every seat earns by it, counted over the people who voted in time (node/src/jury.js). */
module Verdicts {
  import opened Common
  import opened Score
  import opened Ballots
  import opened Ledger
  import opened Settlement
  import opened Appeals
  import opened Episodes
  import opened EntryKeys
  import opened Tribunal

  // ---------------------------------------------------------------- who voted in time

  /** The reveal deadline of the first summons lets a reveal count; a deadline or a time of 0 is none. */
  predicate OnTime(b: Ballot, r: Reveal) {
    b.summons == [] || b.summons[0].deadline.None? || b.summons[0].deadline == Some(0)
    || (r.timestamp.Some? && r.timestamp.value != 0 && r.timestamp.value <= b.summons[0].deadline.value)
  }

  /** The people whose vote counts, and those of them who voted one way. */
  ghost function Voters(b: Ballot): set<string> {
    set r | r in b.revealed && OnTime(b, r) :: r.juror
  }

  ghost function VotersFor(b: Ballot, vote: Vote): set<string> {
    set r | r in b.revealed && OnTime(b, r) && r.vote == vote :: r.juror
  }

  /** Those who found a mismatch and named its origin. */
  ghost function Naming(b: Ballot, o: Origin): set<string> {
    set r | r in b.revealed && OnTime(b, r) && r.vote == Mismatch && r.confirmed == Some(o) :: r.juror
  }

  // ---------------------------------------------------------------- the deadline

  lemma {:induction false} EarlyConcat(x: seq<Reveal>, y: seq<Reveal>, deadline: int)
    ensures Early(x + y, deadline) == Early(x, deadline) + Early(y, deadline)
  {
    if x == [] {
      assert x + y == y;
    } else {
      assert (x + y)[1..] == x[1..] + y;
      EarlyConcat(x[1..], y, deadline);
    }
  }

  function With(b: Ballot, revealed: seq<Reveal>): Ballot {
    b.(revealed := revealed)
  }

  /** Each reveal counts or does not by itself, and those that count keep their order. */
  lemma InTimeSplits(b: Ballot, x: seq<Reveal>, r: Reveal, y: seq<Reveal>)
    ensures InTime(With(b, [])) == []
    ensures InTime(With(b, x + [r] + y)) == InTime(With(b, x)) + (if OnTime(b, r) then [r] else []) + InTime(With(b, y))
  {
    if b.summons != [] && b.summons[0].deadline.Some? && b.summons[0].deadline.value != 0 {
      var deadline := b.summons[0].deadline.value;
      EarlyConcat(x + [r], y, deadline);
      EarlyConcat(x, [r], deadline);
      assert [r][1..] == [];
      assert Early([r], deadline) == if OnTime(b, r) then [r] else [];
    }
  }

  lemma {:induction false} AbsencesSame(summons: seq<Summons>, revealed: set<string>, a: Ballot, b: Ballot, t: SeatTariff, tier: Tier)
    requires a.commits == b.commits
    ensures AbsenceEntries(summons, revealed, a, t, tier) == AbsenceEntries(summons, revealed, b, t, tier)
  {
    if summons != [] {
      AbsencesSame(summons[..|summons| - 1], revealed, a, b, t, tier);
    }
  }

  /** Ballots with the same votes in time, summons and commitments are settled alike. */
  lemma SameVotesSameBatch(k: Tariff, c: Case, log: seq<Update>, a: Ballot, b: Ballot, experts: seq<string>, e: Earlier, offenses: int)
    requires InTime(a) == InTime(b) && a.summons == b.summons && a.commits == b.commits
    ensures JuryBatch(k, c, log, a, experts, offenses) == JuryBatch(k, c, log, b, experts, offenses)
    ensures AppealBatch(k, c, log, e, a, offenses) == AppealBatch(k, c, log, e, b, offenses)
  {
    AbsencesSame(a.summons, JurorsOf(InTime(a)), a, b, k.jurors, JuryTier);
    AbsencesSame(a.summons, JurorsOf(InTime(a)), a, b, k.experts, ExpertTier);
    hide InTime, AbsenceEntries, VoteEntries, JuryAuthorEntries, DisputerEntries, JuryReviewerEntries, VindicationEntries, Charges,
      SummonsFor, RulingOf, Count, Penalize, ExpertCredit, FlipEntries, FirstEntries, JurorsOf, FreshPenalty, Entry;
  }

  /** A late reveal is as if it had never come, wherever it stands among the others: neither stage's batch
      shows it. */
  lemma LateIsNeutral(k: Tariff, c: Case, log: seq<Update>, b: Ballot, experts: seq<string>, e: Earlier, offenses: int,
                      x: seq<Reveal>, r: Reveal, y: seq<Reveal>)
    requires b.summons != [] && b.summons[0].deadline.Some? && b.summons[0].deadline.value != 0
    requires r.timestamp.None? || r.timestamp.value > b.summons[0].deadline.value
    ensures JuryBatch(k, c, log, With(b, x + [r] + y), experts, offenses) == JuryBatch(k, c, log, With(b, x + y), experts, offenses)
    ensures AppealBatch(k, c, log, e, With(b, x + [r] + y), offenses) == AppealBatch(k, c, log, e, With(b, x + y), offenses)
  {
    InTimeSplits(b, x, r, y);
    assert InTime(With(b, x + y)) == InTime(With(b, x)) + InTime(With(b, y)) by {
      EarlyConcat(x, y, b.summons[0].deadline.value);
    }
    hide InTime, JuryBatch, AppealBatch;
    SameVotesSameBatch(k, c, log, With(b, x + [r] + y), With(b, x + y), experts, e, offenses);
  }

  lemma {:induction false} EarlyElements(rs: seq<Reveal>, deadline: int)
    ensures forall r :: r in Early(rs, deadline) <==> r in rs && r.timestamp.Some? && r.timestamp.value != 0 && r.timestamp.value <= deadline
  {
    if rs != [] {
      EarlyElements(rs[1..], deadline);
      assert forall r :: r in rs <==> r == rs[0] || r in rs[1..];
    }
  }

  lemma InTimeElements(b: Ballot)
    ensures forall r :: r in InTime(b) <==> r in b.revealed && OnTime(b, r)
  {
    if b.summons != [] && b.summons[0].deadline.Some? {
      EarlyElements(b.revealed, b.summons[0].deadline.value);
    }
  }

  // ---------------------------------------------------------------- counting people

  ghost function Those(rs: seq<Reveal>, vote: Vote): set<string> {
    set r | r in rs && r.vote == vote :: r.juror
  }

  lemma {:induction false} CountIsSize(rs: seq<Reveal>, vote: Vote)
    requires OncePerJuror(rs)
    ensures Count(rs, vote) == |Those(rs, vote)| && |rs| == |JurorsOf(rs)|
  {
    if rs != [] {
      var n := |rs| - 1;
      CountIsSize(rs[..n], vote);
      OneMoreVoter(rs, vote);
      hide Those, JurorsOf, OncePerJuror;
    }
  }

  lemma OneMoreVoter(rs: seq<Reveal>, vote: Vote)
    requires OncePerJuror(rs) && rs != []
    ensures var before, last := rs[..|rs| - 1], rs[|rs| - 1];
      && OncePerJuror(before)
      && JurorsOf(rs) == JurorsOf(before) + {last.juror} && last.juror !in JurorsOf(before)
      && Those(rs, vote) == Those(before, vote) + (if last.vote == vote then {last.juror} else {}) && last.juror !in Those(before, vote)
  {
    LastIsNew(rs);
    hide OncePerJuror;
  }

  lemma LastIsNew(rs: seq<Reveal>)
    requires OncePerJuror(rs) && rs != []
    ensures var before, last := rs[..|rs| - 1], rs[|rs| - 1];
      && OncePerJuror(before)
      && (forall r :: r in rs <==> r in before || r == last) && (forall r | r in before :: r.juror != last.juror)
  {
    var before, last := rs[..|rs| - 1], rs[|rs| - 1];
    assert rs == before + [last];
    forall r | r in before ensures r.juror != last.juror {
      var i :| 0 <= i < |before| && before[i] == r;
      assert rs[i] == r;
    }
    hide OncePerJuror;
    assert forall r :: r in rs <==> r in before || r == last;
  }

  lemma CountIsVoters(b: Ballot, vote: Vote)
    requires OrderlyBallot(b)
    ensures Count(InTime(b), vote) == |VotersFor(b, vote)| && |InTime(b)| == |Voters(b)|
  {
    InTimeOnce(b);
    InTimeElements(b);
    CountIsSize(InTime(b), vote);
    hide InTime, Count, OnTime, OrderlyBallot;
    assert Those(InTime(b), vote) == VotersFor(b, vote);
    assert JurorsOf(InTime(b)) == Voters(b);
  }

  // ---------------------------------------------------------------- the confirmed origin

  predicate Names(b: Ballot, r: Reveal, o: Origin) {
    OnTime(b, r) && r.vote == Mismatch && r.confirmed == Some(o)
  }

  /** In the order the votes are listed, `o` is named before anybody names `p`. */
  ghost predicate NamedFirst(b: Ballot, o: Origin, p: Origin) {
    exists i :: 0 <= i < |b.revealed| && FirstNaming(b, o, p, i)
  }

  ghost predicate FirstNaming(b: Ballot, o: Origin, p: Origin, i: nat)
    requires i < |b.revealed|
  {
    Names(b, b.revealed[i], o) && forall j | 0 <= j <= i :: !Names(b, b.revealed[j], p)
  }

  /** The origin that most people name, the first named among equals; with none named, the claimed one. */
  ghost predicate Plurality(b: Ballot, confirmed: Option<Origin>, claimed: Option<Origin>) {
    if forall o :: Naming(b, o) == {} then confirmed == claimed
    else
      && confirmed.Some?
      && forall p | p != confirmed.value :: (|Naming(b, p)| < |Naming(b, confirmed.value)|
                                            || (|Naming(b, p)| == |Naming(b, confirmed.value)| && NamedFirst(b, confirmed.value, p)))
  }

  ghost function ThoseNaming(rs: seq<Reveal>, o: Origin): set<string> {
    set r | r in rs && r.vote == Mismatch && r.confirmed == Some(o) :: r.juror
  }

  lemma {:induction false} TimesIsSize(rs: seq<Reveal>, o: Origin)
    requires OncePerJuror(rs)
    ensures Times(Origins(rs), o) == |ThoseNaming(rs, o)|
  {
    if rs != [] {
      var before, last := rs[..|rs| - 1], rs[|rs| - 1];
      TimesIsSize(before, o);
      LastIsNew(rs);
      OneMoreNaming(rs, o);
      OneMoreTime(rs, o);
      hide ThoseNaming, Those, JurorsOf, OncePerJuror, Origins, Times;
    }
  }

  lemma OneMoreNaming(rs: seq<Reveal>, o: Origin)
    requires OncePerJuror(rs) && rs != []
    ensures var before, last := rs[..|rs| - 1], rs[|rs| - 1];
      var more := last.vote == Mismatch && last.confirmed == Some(o);
      ThoseNaming(rs, o) == ThoseNaming(before, o) + (if more then {last.juror} else {}) && last.juror !in ThoseNaming(before, o)
  {
    LastIsNew(rs);
    hide OncePerJuror;
  }

  lemma OneMoreTime(rs: seq<Reveal>, o: Origin)
    requires rs != []
    ensures var before, last := rs[..|rs| - 1], rs[|rs| - 1];
      Times(Origins(rs), o) == Times(Origins(before), o) + if last.vote == Mismatch && last.confirmed == Some(o) then 1 else 0
  {
    var before, last := Origins(rs[..|rs| - 1]), rs[|rs| - 1];
    if last.vote == Mismatch && last.confirmed.Some? {
      assert Origins(rs) == before + [last.confirmed.value];
      hide Origins;
      assert multiset(before + [last.confirmed.value]) == multiset(before) + multiset{last.confirmed.value};
    } else {
      assert Origins(rs) == before;
    }
  }

  lemma {:induction false} OriginsFrom(rs: seq<Reveal>, i: nat) returns (n: nat)
    requires i < |Origins(rs)|
    ensures n < |rs| && rs[n].vote == Mismatch && rs[n].confirmed == Some(Origins(rs)[i]) && Origins(rs[..n]) == Origins(rs)[..i]
  {
    var before := rs[..|rs| - 1];
    if i < |Origins(before)| {
      n := OriginsFrom(before, i);
      assert before[..n] == rs[..n];
    } else {
      n := |rs| - 1;
    }
  }

  lemma {:induction false} OriginsHave(rs: seq<Reveal>, r: Reveal)
    requires r in rs && r.vote == Mismatch && r.confirmed.Some?
    ensures r.confirmed.value in Origins(rs)
  {
    var before := rs[..|rs| - 1];
    if r in before {
      OriginsHave(before, r);
    }
  }

  lemma NoneInTime(b: Ballot)
    ensures b.revealed == [] ==> InTime(b) == []
  {}

  lemma {:induction false} InTimeFrom(b: Ballot, n: nat) returns (m: nat)
    requires n < |InTime(b)|
    ensures m < |b.revealed| && b.revealed[m] == InTime(b)[n] && InTime(With(b, b.revealed[..m])) == InTime(b)[..n]
    decreases |b.revealed|
  {
    NoneInTime(b);
    var before, last := b.revealed[..|b.revealed| - 1], b.revealed[|b.revealed| - 1];
    hide InTime, OnTime;
    assert b == With(b, before + [last] + []);
    InTimeSplits(b, before, last, []);
    if n < |InTime(With(b, before))| {
      m := InTimeFrom(With(b, before), n);
      assert before[..m] == b.revealed[..m];
      assert With(With(b, before), before[..m]) == With(b, b.revealed[..m]);
    } else {
      m := |b.revealed| - 1;
    }
  }

  lemma NotBeforeLeader(votes: seq<Origin>, i: nat, p: Origin)
    requires i < |votes| && LeadsAt(votes, i) && Times(votes, p) == Times(votes, votes[i])
    ensures p !in votes[..i]
  {
    forall q | 0 <= q < i ensures votes[q] != p {
      assert Times(votes, votes[q]) < Times(votes, votes[i]);
    }
  }

  lemma LeaderNamedFirst(b: Ballot, o: Origin, p: Origin)
    requires Leads(Origins(InTime(b)), o) && o != p
    requires Times(Origins(InTime(b)), p) == Times(Origins(InTime(b)), o)
    ensures NamedFirst(b, o, p)
  {
    var rs := InTime(b);
    var votes := Origins(rs);
    var i :| 0 <= i < |votes| && votes[i] == o && LeadsAt(votes, i);
    var n := OriginsFrom(rs, i);
    var m := InTimeFrom(b, n);
    NotBeforeLeader(votes, i, p);
    NobodyEarlier(b, n, m, p);
    assert FirstNaming(b, o, p, m) by {
      InTimeElements(b);
    }
  }

  lemma NobodyEarlier(b: Ballot, n: nat, m: nat, p: Origin)
    requires n < |InTime(b)| && m < |b.revealed|
    requires InTime(With(b, b.revealed[..m])) == InTime(b)[..n] && p !in Origins(InTime(b)[..n])
    ensures forall j | 0 <= j < m :: !Names(b, b.revealed[j], p)
  {
    InTimeElements(With(b, b.revealed[..m]));
    hide InTime, Origins;
    forall j | 0 <= j < m ensures !Names(b, b.revealed[j], p) {
      if Names(b, b.revealed[j], p) {
        assert b.revealed[..m][j] == b.revealed[j];
        OriginsHave(InTime(b)[..n], b.revealed[j]);
      }
    }
  }

  lemma NamingIsTimes(b: Ballot, o: Origin)
    requires OrderlyBallot(b)
    ensures Times(Origins(InTime(b)), o) == |Naming(b, o)|
  {
    InTimeOnce(b);
    InTimeElements(b);
    TimesIsSize(InTime(b), o);
    hide InTime, Origins, OnTime, OrderlyBallot;
    assert ThoseNaming(InTime(b), o) == Naming(b, o);
  }

  /** What the confirmed origin of a decision is, in the names given. */
  lemma ConfirmedIsPlurality(b: Ballot, claimed: Option<Origin>)
    requires OrderlyBallot(b)
    ensures Plurality(b, MajorityOrigin(InTime(b), claimed), claimed)
  {
    var votes := Origins(InTime(b));
    MajorityOriginLeads(InTime(b), claimed);
    forall o ensures Times(votes, o) == |Naming(b, o)| {
      NamingIsTimes(b, o);
    }
    if votes == [] {
      assert forall o :: |Naming(b, o)| == 0;
    } else {
      var o := MajorityOrigin(InTime(b), claimed).value;
      assert votes[0] in multiset(votes);
      assert |Naming(b, votes[0])| > 0;
      assert Leads(votes, o);
      hide MajorityOrigin, Naming, Origins, InTime, NamedFirst;
      forall p | p != o ensures |Naming(b, p)| < |Naming(b, o)| || (|Naming(b, p)| == |Naming(b, o)| && NamedFirst(b, o, p)) {
        assert Times(votes, p) <= Times(votes, o);
        if Times(votes, p) == Times(votes, o) {
          LeaderNamedFirst(b, o, p);
        }
      }
    }
  }

  // ---------------------------------------------------------------- the verdict

  /** A verdict fits a vote: dismissed if more found a match, and otherwise a label too cautious exactly if
      the author had declared AI-generated work and the vote confirms human work, and upheld if not. */
  ghost predicate Fits(b: Ballot, v: Verdict, declared: Option<Origin>, confirmed: Option<Origin>) {
    && (v.Dismissed? <==> |VotersFor(b, Match)| > |VotersFor(b, Mismatch)|)
    && (v.ConservativeLabel? <==> |VotersFor(b, Mismatch)| > |VotersFor(b, Match)| && declared == Some(AG) && confirmed == Some(OH))
    && (v.Upheld? <==> |VotersFor(b, Mismatch)| > |VotersFor(b, Match)| && !(declared == Some(AG) && confirmed == Some(OH)))
  }

  lemma RulingFits(b: Ballot, declared: Option<Origin>, claimed: Option<Origin>)
    requires OrderlyBallot(b) && !Tied(InTime(b))
    ensures var r := RulingOf(InTime(b), declared, claimed);
      && Fits(b, r.verdict, declared, r.confirmed)
      && if r.verdict.Dismissed? then r.confirmed.None? else Plurality(b, r.confirmed, claimed)
  {
    CountIsVoters(b, Match);
    CountIsVoters(b, Mismatch);
    ConfirmedIsPlurality(b, claimed);
    hide InTime, Count, MajorityOrigin, VotersFor, Plurality, OrderlyBallot;
  }

  /** The origin declared in the dispute, or else the one on record. */
  predicate DeclaredIs(c: Case, o: Option<Origin>) {
    if c.disputeDeclared.Some? then o == c.disputeDeclared else o == c.recordOrigin
  }

  /** A jury decides exactly if enough people voted, enough of them for one side or the other, and the sides
      are not equal; and then as the larger side says, confirming the origin that side names most. */
  lemma JuryDecides(k: Tariff, c: Case, b: Ballot, experts: seq<string>, offenses: int)
    requires OrderlyBallot(b)
    ensures var r, sides := JuryResult(k, c, b, experts, offenses), |VotersFor(b, Match)| + |VotersFor(b, Mismatch)|;
      var quorum, tie := |Voters(b)| >= k.quorum && sides >= k.majorityVote, |VotersFor(b, Match)| == |VotersFor(b, Mismatch)|;
      && (r.verdict.NoQuorum? <==> !quorum || tie) && (r.tie <==> quorum && tie)
      && (r.terminal <==> r.verdict.NoQuorum? && |experts| < k.minVotes)
      && DeclaredIs(c, r.declared) && r.author == c.author
      && (!r.verdict.NoQuorum? ==> Fits(b, r.verdict, r.declared, r.confirmed))
      && if r.verdict.NoQuorum? || r.verdict.Dismissed? then r.confirmed.None? else Plurality(b, r.confirmed, c.claimed)
  {
    JuryCounts(k, b);
    if !Tied(InTime(b)) {
      RulingFits(b, Declared(c), c.claimed);
    }
    hide InTime, Tied, Quorate, RulingOf, VotersFor, Voters, Fits, Plurality, Penalize, OrderlyBallot;
  }

  lemma JuryCounts(k: Tariff, b: Ballot)
    requires OrderlyBallot(b)
    ensures Tied(InTime(b)) <==> |VotersFor(b, Match)| == |VotersFor(b, Mismatch)|
    ensures Quorate(k, InTime(b)) <==>
      |Voters(b)| >= k.quorum && |VotersFor(b, Match)| + |VotersFor(b, Mismatch)| >= k.majorityVote
    ensures ExpertsDecide(k, InTime(b)) <==>
      |VotersFor(b, Match)| + |VotersFor(b, Mismatch)| >= k.minVotes && |VotersFor(b, Match)| != |VotersFor(b, Mismatch)|
    ensures Count(InTime(b), Match) + Count(InTime(b), Mismatch) == |VotersFor(b, Match)| + |VotersFor(b, Mismatch)|
  {
    CountIsVoters(b, Match);
    CountIsVoters(b, Mismatch);
    hide InTime, Count, VotersFor, Voters, OrderlyBallot;
  }

  /** Experts decide exactly if enough of them took a side and the sides are not equal. */
  lemma ExpertsRule(k: Tariff, c: Case, e: Earlier, b: Ballot, offenses: int)
    requires OrderlyBallot(b)
    ensures var r, sides := AppealOutcome(k, c, e, b, offenses), |VotersFor(b, Match)| + |VotersFor(b, Mismatch)|;
      var tie := |VotersFor(b, Match)| == |VotersFor(b, Mismatch)|;
      var flips := (r.verdict.Dismissed? && e.verdict == Some(Upheld)) || (r.verdict.Upheld? && e.verdict == Some(Dismissed));
      && (r.defaulted <==> sides < k.minVotes || tie) && (r.tie <==> sides >= k.minVotes && tie)
      && (r.defaulted ==> r.verdict.Dismissed? && !r.overturned && r.overturnDelta == 0)
      && (!r.defaulted ==> DeclaredIs(c, r.declared) && Fits(b, r.verdict, r.declared, r.confirmed))
      && (if r.verdict.Dismissed? then r.confirmed.None? else Plurality(b, r.confirmed, c.claimed))
      && (r.overturned <==> !r.defaulted && flips)
  {
    JuryCounts(k, b);
    if !Tied(InTime(b)) {
      RulingFits(b, Declared(c), c.claimed);
    }
    hide InTime, Tied, Count, RulingOf, VotersFor, Fits, Plurality, FreshPenalty, ExpertsDecide, OrderlyBallot;
  }

  // ---------------------------------------------------------------- the author's penalty

  /** What an upheld verdict costs: a penalty exactly for declaring less machine work than is confirmed, by
      the ladder of the two origins and the offences there were. */
  ghost function PenaltyFor(q: Penalties, declared: Option<Origin>, confirmed: Option<Origin>, offenses: int): int {
    if declared.None? || confirmed.None? || !Understates(declared.value, confirmed.value) then 0
    else RungOf(LadderOf(q, declared.value, confirmed.value), offenses)
  }

  /** A jury charges a known author for an upheld dispute, and nobody else for anything else. */
  lemma JuryPenalty(k: Tariff, c: Case, b: Ballot, experts: seq<string>, offenses: int)
    ensures var r := JuryResult(k, c, b, experts, offenses);
      r.authorDelta ==
        if r.verdict.Upheld? && c.author.Some? then PenaltyFor(k.penalties, r.declared, r.confirmed, offenses) else 0
  {
    var r := RulingOf(InTime(b), Declared(c), c.claimed);
    PenaltyTable(k.penalties, VerdictData(Declared(c), r.confirmed, r.verdict, false, false), offenses);
    hide RulingOf, InTime, AdjudicationDelta, Decisive, Quorate;
  }

  /** Experts charge the author for an upheld dispute that the jury had dismissed or not decided. */
  lemma ExpertPenalty(k: Tariff, c: Case, e: Earlier, b: Ballot, offenses: int)
    ensures var r := AppealOutcome(k, c, e, b, offenses);
      r.overturnDelta ==
        if r.verdict.Upheld? && (e.verdict == Some(Dismissed) || e.verdict == Some(NoQuorum)) && c.author.Some?
        then PenaltyFor(k.penalties, r.declared, r.confirmed, offenses) else 0
  {
    var r := RulingOf(InTime(b), Declared(c), c.claimed);
    PenaltyTable(k.penalties, VerdictData(Declared(c), r.confirmed, r.verdict, false, false), offenses);
    hide RulingOf, InTime, AdjudicationDelta, ExpertsDecide;
  }

  // ---------------------------------------------------------------- what a seat earns

  ghost predicate IsSummoned(b: Ballot, person: string) {
    exists i | 0 <= i < |b.summons| :: b.summons[i].juror == person
  }

  ghost predicate Committed(b: Ballot, person: string, appeal: bool) {
    exists i | 0 <= i < |b.commits| :: b.commits[i].juror == person && b.commits[i].isAppeal == appeal
  }

  /** The pay of a person in a panel with this verdict, None if it gave none: the bonus for a vote that the
      verdict bears out and the penalty for one it does not, nothing for an abstention, and for silence of
      one who was summoned the penalty that fits whether a vote had been committed. */
  ghost function SeatPay(b: Ballot, verdict: Option<Verdict>, t: SeatTariff, appeal: bool, person: string): int {
    if person in Voters(b) then
      if verdict.None? || person in VotersFor(b, Abstain) then 0
      else if person in VotersFor(b, if verdict.value.Dismissed? then Match else Mismatch) then t.majorityBonus
      else -t.minorityPenalty
    else if !IsSummoned(b, person) then 0
    else if Committed(b, person, appeal) then -t.noReveal
    else -t.noCommit
  }

  lemma {:induction false} CastIs(rs: seq<Reveal>, person: string, vote: Vote)
    requires OncePerJuror(rs)
    ensures Cast(rs, person).Some? <==> person in JurorsOf(rs)
    ensures Cast(rs, person) == Some(vote) <==> person in Those(rs, vote)
  {
    if rs != [] {
      CastIs(rs[..|rs| - 1], person, vote);
      OneMoreVoter(rs, vote);
      hide Those, JurorsOf, OncePerJuror;
    }
  }

  lemma CastIsVote(b: Ballot, person: string, vote: Vote)
    requires OrderlyBallot(b)
    ensures Cast(InTime(b), person).Some? <==> person in Voters(b)
    ensures Cast(InTime(b), person) == Some(vote) <==> person in VotersFor(b, vote)
    ensures JurorsOf(InTime(b)) == Voters(b)
  {
    InTimeOnce(b);
    InTimeElements(b);
    CastIs(InTime(b), person, vote);
    hide InTime, Cast, OnTime, OrderlyBallot;
    assert Those(InTime(b), vote) == VotersFor(b, vote);
    assert JurorsOf(InTime(b)) == Voters(b);
  }

  lemma SilenceIs(b: Ballot, t: SeatTariff, tier: Tier, person: string)
    requires OrderlyBallot(b)
    ensures SilencePay(person, b, Summoned(b.summons, person), t, tier) ==
      if person in Voters(b) then 0 else SeatPay(b, None, t, tier.ExpertTier?, person)
  {
    CastIsVote(b, person, Match);
    hide InTime, Voters, VotersFor, OrderlyBallot;
    if IsSummoned(b, person) {
      var i :| 0 <= i < |b.summons| && b.summons[i].juror == person;
      assert b.summons[i] in b.summons;
    }
    if Committed(b, person, tier.ExpertTier?) {
      var i :| 0 <= i < |b.commits| && b.commits[i].juror == person && b.commits[i].isAppeal == tier.ExpertTier?;
      assert b.commits[i] == Commit(person, tier.ExpertTier?);
    }
  }

  lemma VoteIs(b: Ballot, v: Verdict, declared: Option<Origin>, confirmed: Option<Origin>, t: SeatTariff, appeal: bool, person: string)
    requires OrderlyBallot(b) && !Tied(InTime(b)) && Fits(b, v, declared, confirmed)
    ensures VotePay(Cast(InTime(b), person), Favoured(InTime(b)), t) ==
      if person in Voters(b) then SeatPay(b, Some(v), t, appeal, person) else 0
  {
    CastIsVote(b, person, Match);
    CastIsVote(b, person, Mismatch);
    CastIsVote(b, person, Abstain);
    CountIsVoters(b, Match);
    CountIsVoters(b, Mismatch);
    hide InTime, Voters, VotersFor, OrderlyBallot, Count, Cast, JurorsOf;
  }

  /** A juror earns what a seat earns: with the verdict, against it, or by silence. */
  lemma JurorPaid(k: Tariff, e: Episode, person: string)
    requires WellFormed(k, e)
    ensures var v := Jury(k, e).verdict;
      NetOf(Entries2(k, e), person, Seat(JuryTier)) ==
        SeatPay(e.jury, if v.NoQuorum? then None else Some(v), k.jurors, false, person)
  {
    var r, b := Jury(k, e), e.jury;
    assert OrderlyBallot(b);
    JurorSettled(k, e, person);
    SilenceIs(b, k.jurors, JuryTier, person);
    if !r.verdict.NoQuorum? {
      assert !Tied(InTime(b));
      RulingFits(b, Declared(e.c), e.c.claimed);
      VoteIs(b, r.verdict, Declared(e.c), r.confirmed, k.jurors, false, person);
    }
    SilentOrNot(b, r.verdict, k.jurors, false, person);
    hide WellFormed, OrderlyBallot, NetOf, Entries2, InTime, VotePay, SilencePay, SeatPay, Fits, Cast, Favoured;
  }

  /** An expert likewise. */
  lemma ExpertPaid(k: Tariff, e: Episode, person: string)
    requires WellFormed(k, e) && e.appeal.Some?
    ensures var x := Experts(k, e);
      NetOf(Entries3(k, e), person, Seat(ExpertTier)) ==
        SeatPay(e.appeal.value.ballot, if x.defaulted then None else Some(x.verdict), k.experts, true, person)
  {
    var x, b := Experts(k, e), e.appeal.value.ballot;
    assert OrderlyBallot(b);
    ExpertSettled(k, e, person);
    SilenceIs(b, k.experts, ExpertTier, person);
    if !x.defaulted {
      assert !Tied(InTime(b));
      RulingFits(b, Declared(e.c), e.c.claimed);
      VoteIs(b, x.verdict, Declared(e.c), x.confirmed, k.experts, true, person);
    }
    SilentOrNot(b, x.verdict, k.experts, true, person);
    hide WellFormed, OrderlyBallot, NetOf, Entries3, InTime, VotePay, SilencePay, SeatPay, Fits, Cast, Favoured;
  }

  lemma SilentOrNot(b: Ballot, v: Verdict, t: SeatTariff, appeal: bool, person: string)
    ensures person in Voters(b) ==> SeatPay(b, None, t, appeal, person) == 0
    ensures person !in Voters(b) ==> SeatPay(b, Some(v), t, appeal, person) == SeatPay(b, None, t, appeal, person)
  {}
}
