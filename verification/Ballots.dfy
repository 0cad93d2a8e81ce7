/** Votes on a dispute: which reveals count, how they are tallied and what they decide (node/src/jury.js). */
module Ballots {
  import opened Common
  import opened Score

  datatype Vote = Match | Mismatch | Abstain

  /** None stands for a missing field. */
  datatype Reveal = Reveal(juror: string, vote: Vote, confirmed: Option<Origin>, timestamp: Option<int>)
  datatype Summons = Summons(juror: string, deadline: Option<int>)
  datatype Commit = Commit(juror: string, isAppeal: bool)

  /** A stage's summons, reveals and vote commitments. */
  datatype Ballot = Ballot(summons: seq<Summons>, revealed: seq<Reveal>, commits: seq<Commit>)

  function Early(rs: seq<Reveal>, deadline: int): seq<Reveal> {
    if rs == [] then [] else
    var t := rs[0].timestamp;
    (if t.Some? && t.value != 0 && t.value <= deadline then [rs[0]] else []) + Early(rs[1..], deadline)
  }

  /** _filterRevealsByDeadline: the deadline is the first summons's. */
  function InTime(b: Ballot): seq<Reveal> {
    if b.summons == [] then b.revealed else
    var deadline := b.summons[0].deadline;
    if deadline.None? || deadline.value == 0 then b.revealed else Early(b.revealed, deadline.value)
  }

  function Count(rs: seq<Reveal>, vote: Vote): nat {
    if rs == [] then 0
    else Count(rs[..|rs| - 1], vote) + if rs[|rs| - 1].vote == vote then 1 else 0
  }

  lemma {:induction false} CountTotal(rs: seq<Reveal>)
    ensures Count(rs, Match) + Count(rs, Mismatch) + Count(rs, Abstain) == |rs|
  {
    if rs != [] {
      CountTotal(rs[..|rs| - 1]);
    }
  }

  function JurorsOf(rs: seq<Reveal>): set<string> {
    set r | r in rs :: r.juror
  }

  // ---------------------------------------------------------------- the confirmed origin

  /** The origins named by the mismatch votes. */
  function Origins(rs: seq<Reveal>): seq<Origin> {
    if rs == [] then [] else
    var last := rs[|rs| - 1];
    Origins(rs[..|rs| - 1]) + if last.vote == Mismatch && last.confirmed.Some? then [last.confirmed.value] else []
  }

  function Times(votes: seq<Origin>, o: Origin): nat {
    multiset(votes)[o]
  }

  /** `o` was named most often, and among those named as often it was named first. */
  ghost predicate Leads(votes: seq<Origin>, o: Origin) {
    exists i | 0 <= i < |votes| :: votes[i] == o && LeadsAt(votes, i)
  }

  ghost predicate LeadsAt(votes: seq<Origin>, i: nat)
    requires i < |votes|
  {
    && (forall p :: Times(votes, p) <= Times(votes, votes[i]))
    && (forall j | 0 <= j < i :: Times(votes, votes[j]) < Times(votes, votes[i]))
  }

  lemma LeaderUnique(votes: seq<Origin>, o: Origin, p: Origin)
    requires Leads(votes, o) && Leads(votes, p)
    ensures o == p
  {
    var i :| 0 <= i < |votes| && votes[i] == o && LeadsAt(votes, i);
    var j :| 0 <= j < |votes| && votes[j] == p && LeadsAt(votes, j);
    assert i == j;
  }

  /** The first place of the highest count. */
  function FirstOfMost(votes: seq<Origin>, n: nat): (i: nat)
    requires 0 < n <= |votes|
    ensures i < n
    ensures forall j | 0 <= j < n :: Times(votes, votes[j]) <= Times(votes, votes[i])
    ensures forall j | 0 <= j < i :: Times(votes, votes[j]) < Times(votes, votes[i])
  {
    if n == 1 then 0 else
    var i := FirstOfMost(votes, n - 1);
    if Times(votes, votes[n - 1]) > Times(votes, votes[i]) then n - 1 else i
  }

  function MajorityOrigin(rs: seq<Reveal>, fallback: Option<Origin>): Option<Origin> {
    var votes := Origins(rs);
    if votes == [] then fallback else Some(votes[FirstOfMost(votes, |votes|)])
  }

  /** The confirmed origin is the one most mismatch votes name, the first named if several are; with
      none named it is the origin the disputer claimed. */
  lemma MajorityOriginLeads(rs: seq<Reveal>, fallback: Option<Origin>)
    ensures Origins(rs) == [] ==> MajorityOrigin(rs, fallback) == fallback
    ensures Origins(rs) != [] ==>
      MajorityOrigin(rs, fallback).Some? && Leads(Origins(rs), MajorityOrigin(rs, fallback).value)
  {
    var votes := Origins(rs);
    if votes != [] {
      var i := FirstOfMost(votes, |votes|);
      forall p ensures Times(votes, p) <= Times(votes, votes[i]) {
        if p in multiset(votes) {
          assert p in votes;
          var j :| 0 <= j < |votes| && votes[j] == p;
        }
      }
      assert LeadsAt(votes, i);
    }
  }

  /** getMajorityOrigin: count by origin, in the order of first mention, and take the first of the most. */
  method CountMajorityOrigin(rs: seq<Reveal>, fallback: Option<Origin>) returns (r: Option<Origin>)
    ensures r == MajorityOrigin(rs, fallback)
  {
    var originVotes := [];
    for n := 0 to |rs|
      invariant originVotes == Origins(rs[..n])
    {
      assert rs[..n + 1][..n] == rs[..n];
      if rs[n].vote == Mismatch && rs[n].confirmed.Some? {
        originVotes := originVotes + [rs[n].confirmed.value];
      }
    }
    assert rs[..|rs|] == rs;
    var counts, order := CountByOrigin(originVotes);
    assert originVotes != [] ==> originVotes[0] in order;
    if order == [] {
      return fallback;
    }
    assert order[0] in originVotes;
    var best := Top(counts, order);
    hide Origins, InOrder;
    assert forall j | 0 <= j < |order| :: order[j] in order;
    LeadsFromOrder(originVotes, order, best);
    MajorityOriginLeads(rs, fallback);
    LeaderUnique(originVotes, order[best], MajorityOrigin(rs, fallback).value);
    return Some(order[best]);
  }

  /** The first line of the counts when they are sorted, largest first, by a stable sort. */
  method Top(counts: map<Origin, nat>, order: seq<Origin>) returns (best: nat)
    requires order != [] && forall o | o in order :: o in counts
    ensures best < |order|
    ensures forall j | 0 <= j < |order| :: counts[order[j]] <= counts[order[best]]
    ensures forall j | 0 <= j < best :: counts[order[j]] < counts[order[best]]
  {
    best := 0;
    for k := 1 to |order|
      invariant best < k
      invariant forall j | 0 <= j < k :: counts[order[j]] <= counts[order[best]]
      invariant forall j | 0 <= j < best :: counts[order[j]] < counts[order[best]]
    {
      if counts[order[k]] > counts[order[best]] {
        best := k;
      }
    }
  }

  function FirstMention(votes: seq<Origin>, o: Origin): int {
    if votes == [] then 0
    else if o in votes[..|votes| - 1] then FirstMention(votes[..|votes| - 1], o) else |votes| - 1
  }

  lemma {:induction false} FirstMentionAt(votes: seq<Origin>, o: Origin)
    requires o in votes
    ensures 0 <= FirstMention(votes, o) < |votes| && votes[FirstMention(votes, o)] == o
    ensures forall j | 0 <= j < FirstMention(votes, o) :: votes[j] != o
  {
    if o in votes[..|votes| - 1] {
      FirstMentionAt(votes[..|votes| - 1], o);
    } else {
      var i :| 0 <= i < |votes| && votes[i] == o;
      assert i < |votes| - 1 ==> votes[..|votes| - 1][i] == o;
    }
  }

  /** `order` lists the origins voted for, in the order of their first mention. */
  ghost predicate InOrder(votes: seq<Origin>, order: seq<Origin>) {
    && (forall o :: o in order <==> o in votes)
    && forall j, k | 0 <= j < k < |order| :: FirstMention(votes, order[j]) < FirstMention(votes, order[k])
  }

  method CountByOrigin(votes: seq<Origin>) returns (counts: map<Origin, nat>, order: seq<Origin>)
    ensures InOrder(votes, order)
    ensures forall o :: o in order <==> o in votes
    ensures forall o | o in order :: o in counts && counts[o] == Times(votes, o)
  {
    counts, order := map[], [];
    for n := 0 to |votes|
      invariant InOrder(votes[..n], order) && Counts(counts, votes[..n])
      invariant forall o :: o in counts <==> o in order
    {
      var o := votes[n];
      assert votes[..n + 1] == votes[..n] + [o];
      hide InOrder, Counts;
      CountsNext(counts, votes[..n], o);
      NextMention(votes[..n], o, order);
      if o in counts {
        counts := counts[o := counts[o] + 1];
      } else {
        counts := counts[o := 1];
        order := order + [o];
      }
    }
    assert votes[..|votes|] == votes;
  }

  ghost predicate Counts(counts: map<Origin, nat>, votes: seq<Origin>) {
    forall o :: (if o in counts then counts[o] else 0) == Times(votes, o)
  }

  lemma CountsNext(counts: map<Origin, nat>, votes: seq<Origin>, o: Origin)
    requires Counts(counts, votes)
    ensures Counts(counts[o := (if o in counts then counts[o] else 0) + 1], votes + [o])
  {
    assert multiset(votes + [o]) == multiset(votes) + multiset{o};
  }

  lemma NextMention(votes: seq<Origin>, o: Origin, order: seq<Origin>)
    requires InOrder(votes, order)
    ensures InOrder(votes + [o], if o in order then order else order + [o])
  {
    var next, order' := votes + [o], if o in order then order else order + [o];
    assert next[..|next| - 1] == votes;
    forall p | p in order ensures FirstMention(next, p) == FirstMention(votes, p) < |votes| {
      FirstMentionAt(votes, p);
    }
    hide FirstMention;
    forall j, k | 0 <= j < k < |order'| ensures FirstMention(next, order'[j]) < FirstMention(next, order'[k]) {
      assert order'[j] == order[j] && order[j] in order;
      if k < |order| {
        assert order'[k] == order[k] && order[k] in order;
      } else {
        LastMention(votes, o);
      }
    }
  }

  lemma LastMention(votes: seq<Origin>, o: Origin)
    requires o !in votes
    ensures FirstMention(votes + [o], o) == |votes|
  {
    assert (votes + [o])[..|votes|] == votes;
  }

  lemma LeadsFromOrder(votes: seq<Origin>, order: seq<Origin>, best: nat)
    requires InOrder(votes, order) && best < |order|
    requires forall j | 0 <= j < |order| :: Times(votes, order[j]) <= Times(votes, order[best])
    requires forall j | 0 <= j < best :: Times(votes, order[j]) < Times(votes, order[best])
    ensures Leads(votes, order[best])
  {
    var o := order[best];
    assert o in votes;
    FirstMentionAt(votes, o);
    var i := FirstMention(votes, o);
    forall p ensures Times(votes, p) <= Times(votes, o) {
      if p in multiset(votes) {
        assert p in votes;
        var j :| 0 <= j < |order| && order[j] == p;
      }
    }
    forall j | 0 <= j < i ensures Times(votes, votes[j]) < Times(votes, o) {
      assert votes[j] in order;
      var k :| 0 <= k < |order| && order[k] == votes[j];
      FirstMentionAt(votes, votes[j]);
      assert FirstMention(votes, order[k]) <= j;
      hide FirstMention;
    }
    assert LeadsAt(votes, i);
  }

  // ---------------------------------------------------------------- rulings

  /** What a quorate, undivided vote decides: the verdict and the origin it confirms. An author who
      declared AI-generated work that turns out human-made has only labelled too cautiously. */
  datatype Ruling = Ruling(verdict: Verdict, confirmed: Option<Origin>)

  function RulingOf(rs: seq<Reveal>, declared: Option<Origin>, claimed: Option<Origin>): Ruling {
    if Count(rs, Mismatch) <= Count(rs, Match) then Ruling(Dismissed, None) else
    var confirmed := MajorityOrigin(rs, claimed);
    Ruling(if declared == Some(AG) && confirmed == Some(OH) then ConservativeLabel else Upheld, confirmed)
  }

  /** The vote is a draw. */
  predicate Tied(rs: seq<Reveal>) {
    Count(rs, Match) == Count(rs, Mismatch)
  }

  /** The source's own majority, half of the votes cast plus one, is reached exactly by the larger side. */
  method Decide(rs: seq<Reveal>, declared: Option<Origin>, claimed: Option<Origin>) returns (r: Ruling)
    requires !Tied(rs)
    ensures r == RulingOf(rs, declared, claimed)
  {
    var matches, mismatches := Count(rs, Match), Count(rs, Mismatch);
    var nonAbstain := matches + mismatches;
    var majorityNeeded := nonAbstain / 2 + 1;
    if mismatches < majorityNeeded {
      return Ruling(Dismissed, None);
    }
    var confirmed := CountMajorityOrigin(rs, claimed);
    r := Ruling(if declared == Some(AG) && confirmed == Some(OH) then ConservativeLabel else Upheld, confirmed);
  }
}
