/** Small episodes on which the settlement does not follow the verdict that stands. */
module Counterexamples {
  import opened Common
  import opened Score
  import opened Ballots
  import opened Reviews
  import opened Ledger
  import opened Settlement
  import opened Appeals
  import opened Episodes
  import opened PathIndependence

  function SomeTariff(): Tariff {
    var seat, ladder := SeatTariff(3, 8, 8, 1), Ladder(-10, -20, -30);
    Tariff(1, 1, 1, 15, 5, 5, 10, 10, 5, -5, seat, seat, Penalties(ladder, ladder, ladder, -1, -2))
  }

  function SomeCase(reviews: seq<Review>): Case {
    Case(Some("author"), Some("disputer"), Some(OH), Some(OH), Some(AG), reviews)
  }

  function Votes(vote: Vote): Ballot {
    Ballot([], [Reveal("voter", vote, Some(AG), None)], [])
  }

  lemma OneVote(vote: Vote)
    ensures OrderlyBallot(Votes(vote)) && InTime(Votes(vote)) == Votes(vote).revealed
    ensures Count(Votes(vote).revealed, Match) == (if vote.Match? then 1 else 0)
    ensures Count(Votes(vote).revealed, Mismatch) == (if vote.Mismatch? then 1 else 0)
    ensures vote.Mismatch? ==> RulingOf(Votes(vote).revealed, Some(OH), Some(AG)) == Ruling(Upheld, Some(AG))
  {
    var rs := Votes(vote).revealed;
    assert rs[..0] == [];
    assert Count(rs[..0], Match) == 0 && Count(rs[..0], Mismatch) == 0;
    if vote.Mismatch? {
      assert Origins(rs[..0]) == [];
      assert Origins(rs) == [AG];
    }
  }

  /** A jury that does not vote and no panel to escalate to: the case is closed and the stake returned.
      The disputer appeals all the same and the experts dismiss: the stake stays returned, and the author
      is not paid for the exoneration. */
  lemma ReopenedCase() returns (k: Tariff, e: Episode)
    ensures WellFormed(k, e) && Reopened(k, e) && Effective(k, e) == Some(Dismissed)
    ensures k.disputerStake > 0 && Net(Landed(k, e), Disputing) == 0
    ensures k.vindicationBonus > 0 && Net(Landed(k, e), Exoneration) != DueOn(k, e.c, Effective(k, e), Exoneration)
  {
    k := SomeTariff();
    e := Episode(SomeCase([]), [], Ballot([], [], []), [], 0, Some(Appeal("disputer", Votes(Match), 0)));
    OneVote(Match);
    assert !Decisive(k, InTime(e.jury));
    assert Jury(k, e).verdict.NoQuorum? && Jury(k, e).terminal;
    assert Experts(k, e).verdict.Dismissed? && !Experts(k, e).defaulted && !Experts(k, e).overturned;
    assert "disputer"[0] != SYSTEM[0];
    assert WellFormed(k, e);
    hide Jury, Experts, WellFormed;
    DisputerSettled(k, e);
    VindicationSettledIff(k, e);
  }

  /** The jury dismisses, the experts overturn it: the reviewer who had closed the item as harmless keeps
      the bonus that an upheld dispute takes back. */
  lemma OverturnedDismissal() returns (k: Tariff, e: Episode)
    ensures WellFormed(k, e) && Effective(k, e) == Some(Upheld)
    ensures Net(Landed(k, e), Clawback) != DueOn(k, e.c, Effective(k, e), Clawback)
  {
    k, e := SomeTariff(), Overturned();
    OverturnedIs();
    OverturnedWellFormed();
    hide Jury, Experts, WellFormed, SomeTariff, Overturned;
    ClawbackSettledIff(k, e);
    OverturnedDue();
  }

  function Overturned(): Episode {
    Episode(SomeCase([Review("review", "item", ClosedDismissed, Some("reviewer"), false)]), [], Votes(Match), [], 0,
            Some(Appeal("disputer", Votes(Mismatch), 0)))
  }

  lemma OverturnedIs()
    ensures var k, e := SomeTariff(), Overturned();
      && Jury(k, e).verdict.Dismissed? && Experts(k, e).verdict.Upheld? && !Experts(k, e).defaulted && Experts(k, e).overturned
      && Effective(k, e) == Some(Upheld)
  {
    var k, e := SomeTariff(), Overturned();
    OneVote(Match);
    OneVote(Mismatch);
    hide InTime, Count, RulingOf;
    assert Jury(k, e).verdict.Dismissed? by { JuryDismisses(); }
    assert Experts(k, e).verdict.Upheld?;
  }

  lemma JuryDismisses()
    ensures Jury(SomeTariff(), Overturned()).verdict.Dismissed?
  {
    OneVote(Match);
    assert RulingOf(Votes(Match).revealed, Some(OH), Some(AG)).verdict.Dismissed?;
    hide Count, InTime;
  }

  lemma OverturnedWellFormed()
    ensures WellFormed(SomeTariff(), Overturned())
  {
    OneVote(Match);
    OneVote(Mismatch);
    JuryDismisses();
    hide Jury, InTime;
    assert "disputer"[0] != SYSTEM[0];
  }

  lemma OverturnedDue()
    ensures DueClawback(SomeTariff(), Overturned().c, Upheld) == -5
  {}
}
