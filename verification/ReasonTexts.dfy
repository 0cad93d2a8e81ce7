/** The reasons of a dispute's score entries as the chain stores them, as texts (node/src/jury.js, node/src/services). */
module ReasonTexts {
  // Two entries clash on the chain when their texts do, so this file spells the reasons out and shows that
  // no two of them ever share a text. The fixed words are kept as a tree: reasons that begin alike share the
  // beginning, and where they part the next words begin with different letters. Words that end a reason have
  // numbers over 100.

  import opened Ledger
  import RegCredit

  function Word(n: nat): string {
    match n
    case 1 => "re"
    case 2 => "g_credit"
    case 3 => "_re"
    case 4 => "view_"
    case 5 => "correct_bonus"
    case 6 => "_"
    case 7 => "wrong_dismiss_clawback"
    case 8 => "Dispute "
    case 9 => "A"
    case 10 => "ppeal "
    case 11 => "overturned"
    case 12 => ": "
    case 13 => "Stage 2 "
    case 14 => "vindication "
    case 15 => "Jury "
    case 16 => "m"
    case 17 => "no-"
    case 18 => "Expert "
    case 19 => "m"
    case 20 => "no-"
    case 21 => "Stage 3 verdict "
    case 22 => "UPHELD: "
    case 101 => ":"
    case 102 => "v:"
    case 103 => "store:"
    case 104 => ":"
    case 105 => "on_appeal:"
    case 106 => "no_quorum:"
    case 107 => ":"
    case 108 => "_no_quorum:"
    case 109 => "filing stake on "
    case 110 => "refunded (terminal no-quorum) on "
    case 111 => "upheld on "
    case 112 => "conservative-label on "
    case 113 => "vindication on "
    case 114 => "filing stake on "
    case 115 => "stake refunded (no result) on "
    case 116 => " on "
    case 117 => "settlement reversed on "
    case 118 => "penalty reversed on "
    case 119 => "review_correct_bonus reversed on "
    case 120 => "stake refunded + bonus on "
    case 121 => "on "
    case 122 => "retracted on "
    case 123 => "mismatch confirmed on "
    case 124 => "wrong_dismiss_clawback reversed on "
    case 125 => "uthor penalty: UPHELD on "
    case 126 => "ajority vote on "
    case 127 => "inority vote on "
    case 128 => "reveal on "
    case 129 => "commit on "
    case 130 => "ajority vote on "
    case 131 => "inority vote on "
    case 132 => "reveal on "
    case 133 => "commit on "
    case 134 => "stake refunded + bonus on "
    case 135 => "author penalty on "
    case 136 => "CONSERVATIVE_LABEL: stake refunded on "
    case _ => ""
  }

  function Initial(n: nat): char {
    match n
    case 1 | 110 | 119 | 122 | 128 | 132 => 'r'
    case 2 => 'g'
    case 3 | 6 | 108 => '_'
    case 4 | 14 | 102 | 113 => 'v'
    case 5 | 112 | 129 | 133 => 'c'
    case 7 | 124 => 'w'
    case 8 => 'D'
    case 9 => 'A'
    case 10 | 118 => 'p'
    case 11 | 105 | 121 => 'o'
    case 12 | 101 | 104 | 107 => ':'
    case 13 | 21 => 'S'
    case 15 => 'J'
    case 16 | 19 | 123 => 'm'
    case 17 | 20 | 106 => 'n'
    case 18 => 'E'
    case 22 => 'U'
    case 103 | 115 | 117 | 120 | 134 => 's'
    case 109 | 114 => 'f'
    case 111 | 125 => 'u'
    case 116 => ' '
    case 126 | 130 | 135 => 'a'
    case 127 | 131 => 'i'
    case 136 => 'C'
    case _ => ' '
  }

  predicate IsWord(n: nat) {
    0 < n <= 22 || 100 < n <= 136
  }

  /** The next word after `n`, told from its first letter. */
  function Next(n: nat, c: char): nat {
    match n
    case 0 => if c == 'r' then 1 else if c == 'D' then 8 else if c == 'A' then 9 else if c == 'J' then 15 else if c == 'E' then 18 else 21
    case 1 => if c == 'g' then 2 else 4
    case 2 => if c == ':' then 101 else 3
    case 3 => if c == 'v' then 102 else 103
    case 4 => if c == 'c' then 5 else 7
    case 5 => if c == ':' then 104 else 6
    case 6 => if c == 'o' then 105 else 106
    case 7 => if c == ':' then 107 else 108
    case 8 => if c == 'f' then 109 else if c == 'r' then 110 else if c == 'u' then 111 else if c == 'c' then 112 else 113
    case 9 => if c == 'p' then 10 else 125
    case 10 => if c == 'f' then 114 else if c == 's' then 115 else 11
    case 11 => if c == ' ' then 116 else 12
    case 12 => if c == 'S' then 13 else if c == 's' then 120 else if c == 'v' then 14 else if c == 'm' then 123 else 124
    case 13 => if c == 's' then 117 else if c == 'p' then 118 else 119
    case 14 => if c == 'o' then 121 else 122
    case 15 => if c == 'm' then 16 else 17
    case 16 => if c == 'a' then 126 else 127
    case 17 => if c == 'r' then 128 else 129
    case 18 => if c == 'm' then 19 else 20
    case 19 => if c == 'a' then 130 else 131
    case 20 => if c == 'r' then 132 else 133
    case 21 => if c == 'U' then 22 else 136
    case 22 => if c == 's' then 134 else 135
    case _ => 0
  }

  /** The word before `n`; 0 before a first word. */
  function Previous(n: nat): (m: nat)
    ensures m <= 22 && (n > 0 ==> m < n)
  {
    match n
    case 2 | 4 => 1
    case 101 | 3 => 2
    case 102 | 103 => 3
    case 5 | 7 => 4
    case 104 | 6 => 5
    case 105 | 106 => 6
    case 107 | 108 => 7
    case 109 | 110 | 111 | 112 | 113 => 8
    case 10 | 125 => 9
    case 114 | 115 | 11 => 10
    case 116 | 12 => 11
    case 13 | 120 | 14 | 123 | 124 => 12
    case 117 | 118 | 119 => 13
    case 121 | 122 => 14
    case 16 | 17 => 15
    case 126 | 127 => 16
    case 128 | 129 => 17
    case 19 | 20 => 18
    case 130 | 131 => 19
    case 132 | 133 => 20
    case 22 | 136 => 21
    case 134 | 135 => 22
    case _ => 0
  }

  /** The words up to `n`. */
  function Path(n: nat): seq<nat> {
    if Previous(n) == 0 || n == 0 then [n] else Path(Previous(n)) + [n]
  }

  /** The word that ends a reason; no other reason, and no other panel, ends with it. */
  function End(r: Reason): nat {
    match r
    case CreditAward => 101  // reg_credit:...
    case CreditReversal => 102  // reg_credit_rev:...
    case CreditRestore => 103  // reg_credit_restore:...
    case DisputeStake => 109  // Dispute filing stake on ...
    case AppealStake => 114  // Appeal filing stake on ...
    case DisputeRefunded => 110  // Dispute refunded (terminal no-quorum) on ...
    case MajorityVote(t) => if t.JuryTier? then 126 else 130  // Jury majority vote on ..., Expert majority vote on ...
    case MinorityVote(t) => if t.JuryTier? then 127 else 131  // Jury minority vote on ..., Expert minority vote on ...
    case NoReveal(t) => if t.JuryTier? then 128 else 132  // Jury no-reveal on ..., Expert no-reveal on ...
    case NoCommit(t) => if t.JuryTier? then 129 else 133  // Jury no-commit on ..., Expert no-commit on ...
    case AuthorPenalty => 125  // Author penalty: UPHELD on ...
    case DisputeUpheld => 111  // Dispute upheld on ...
    case DisputeConservative => 112  // Dispute conservative-label on ...
    case Vindication => 113  // Dispute vindication on ...
    case ReviewBonus(_) => 104  // review_correct_bonus:...
    case WrongDismiss(_) => 107  // review_wrong_dismiss_clawback:...
    case AppealRefunded => 115  // Appeal stake refunded (no result) on ...
    case AppealOverturned => 116  // Appeal overturned on ...
    case SettlementReversed => 117  // Appeal overturned: Stage 2 settlement reversed on ...
    case StakeRefundedBonus => 120  // Appeal overturned: stake refunded + bonus on ...
    case PenaltyReversed => 118  // Appeal overturned: Stage 2 penalty reversed on ...
    case AppealVindication => 121  // Appeal overturned: vindication on ...
    case MismatchConfirmed => 123  // Appeal overturned: mismatch confirmed on ...
    case VindicationRetracted => 122  // Appeal overturned: vindication retracted on ...
    case ReviewBonusReversed => 119  // Appeal overturned: Stage 2 review_correct_bonus reversed on ...
    case ReviewBonusOnAppeal(_) => 105  // review_correct_bonus_on_appeal:...
    case WrongDismissReversed => 124  // Appeal overturned: wrong_dismiss_clawback reversed on ...
    case Stage3Upheld => 134  // Stage 3 verdict UPHELD: stake refunded + bonus on ...
    case Stage3Penalty => 135  // Stage 3 verdict UPHELD: author penalty on ...
    case Stage3Conservative => 136  // Stage 3 verdict CONSERVATIVE_LABEL: stake refunded on ...
    case ReviewBonusNoQuorum(_) => 106  // review_correct_bonus_no_quorum:...
    case WrongDismissNoQuorum(_) => 108  // review_wrong_dismiss_clawback_no_quorum:...
    case Other(_) => 0
  }

  /** What follows the fixed words: the review's identifier for some reasons, the item's for the others. */
  function Tail(ctid: string, r: Reason): string {
    match r
    case ReviewBonus(review) => review
    case WrongDismiss(review) => review
    case ReviewBonusOnAppeal(review) => review
    case ReviewBonusNoQuorum(review) => review
    case WrongDismissNoQuorum(review) => review
    case _ => ctid
  }

  function Spell(words: seq<nat>): string {
    if words == [] then "" else Word(words[0]) + Spell(words[1..])
  }

  /** The text of a reason on an item. */
  function Text(ctid: string, r: Reason): string {
    if r.Other? then r.text else Spell(Path(End(r))) + Tail(ctid, r)
  }

  // ---------------------------------------------------------------- no two reasons share a text

  lemma WordsStart(n: nat)
    requires 0 < n <= 22
    ensures Word(n) != "" && Word(n)[0] == Initial(n)
  {}

  lemma EndsStart1(n: nat)
    requires 100 < n <= 111
    ensures Word(n) != "" && Word(n)[0] == Initial(n)
  {}

  lemma EndsStart2(n: nat)
    requires 111 < n <= 118
    ensures Word(n) != "" && Word(n)[0] == Initial(n)
  {}

  lemma EndsStart3(n: nat)
    requires 118 < n <= 125
    ensures Word(n) != "" && Word(n)[0] == Initial(n)
  {}

  lemma EndsStart4(n: nat)
    requires 125 < n <= 136
    ensures Word(n) != "" && Word(n)[0] == Initial(n)
  {}

  lemma WordStarts(n: nat)
    requires IsWord(n)
    ensures Word(n) != "" && Word(n)[0] == Initial(n)
  {
    hide Word, Initial;
    if n <= 22 {
      WordsStart(n);
    } else if n <= 111 {
      EndsStart1(n);
    } else if n <= 118 {
      EndsStart2(n);
    } else if n <= 125 {
      EndsStart3(n);
    } else {
      EndsStart4(n);
    }
  }

  /** The word at place `i` follows the one before it. */
  predicate Follows(after: nat, words: seq<nat>, i: nat)
    requires i < |words|
  {
    IsWord(words[i]) && Next(if i == 0 then after else words[i - 1], Initial(words[i])) == words[i]
  }

  /** Words that follow one another in the tree from `after` on, to an end. */
  predicate Leads(after: nat, words: seq<nat>) {
    && after <= 100 && words != []
    && forall i | 0 <= i < |words| :: Follows(after, words, i) && (words[i] > 100 <==> i == |words| - 1)
  }

  lemma FirstLeads(after: nat, words: seq<nat>)
    requires Leads(after, words)
    ensures words != [] && IsWord(words[0]) && Next(after, Initial(words[0])) == words[0]
    ensures words[0] > 100 ==> words[1..] == []
    ensures words[0] <= 100 ==> Leads(words[0], words[1..])
  {
    hide Initial, Next;
    var rest := words[1..];
    assert Follows(after, words, 0);
    forall i | 0 <= i < |rest| ensures Follows(words[0], rest, i) && (rest[i] > 100 <==> i == |rest| - 1) {
      assert Follows(after, words, i + 1) && rest[i] == words[i + 1];
    }
  }

  /** A text tells the words it starts with. */
  lemma {:induction false} SpellTells(after: nat, v: seq<nat>, w: seq<nat>, x: string, y: string)
    requires Leads(after, v) && Leads(after, w) && Spell(v) + x == Spell(w) + y
    ensures v == w && x == y
    decreases |v|
  {
    hide Word, Initial, Next;
    var s, t := Spell(v[1..]) + x, Spell(w[1..]) + y;
    FirstLeads(after, v);
    FirstLeads(after, w);
    hide Leads;
    WordStarts(v[0]);
    WordStarts(w[0]);
    assert Spell(v) + x == Word(v[0]) + s && Spell(w) + y == Word(w[0]) + t;
    assert (Word(v[0]) + s)[0] == Initial(v[0]) && (Word(w[0]) + t)[0] == Initial(w[0]);
    assert v[0] == w[0];
    assert s == (Word(v[0]) + s)[|Word(v[0])|..] && t == (Word(w[0]) + t)[|Word(w[0])|..];
    if v[0] > 100 {
      assert s == x && t == y;
      assert v == [v[0]] && w == [w[0]];
    } else {
      SpellTells(v[0], v[1..], w[1..], x, y);
      assert v == [v[0]] + v[1..] && w == [w[0]] + w[1..];
    }
  }

  lemma Known1(n: nat)
    requires 0 < n <= 22
    ensures Next(Previous(n), Initial(n)) == n
  {}

  lemma Known2(n: nat)
    requires 100 < n <= 118
    ensures Next(Previous(n), Initial(n)) == n
  {}

  lemma Known3(n: nat)
    requires 118 < n <= 136
    ensures Next(Previous(n), Initial(n)) == n
  {}

  /** The words up to any word can be told one after the other. */
  lemma {:induction false} PathLeads(n: nat)
    requires IsWord(n)
    ensures var words := Path(n);
      && words != [] && words[|words| - 1] == n
      && forall i | 0 <= i < |words| :: Follows(0, words, i) && (i < |words| - 1 ==> words[i] <= 22)
  {
    if n <= 22 {
      Known1(n);
    } else if n <= 118 {
      Known2(n);
    } else {
      Known3(n);
    }
    var m := Previous(n);
    if m == 0 {
      assert Path(n) == [n];
    } else {
      PathLeads(m);
      assert Path(n) == Path(m) + [n];
      hide Previous, Path, Next, Initial;
      Longer(Path(m), n);
    }
  }

  lemma Longer(words: seq<nat>, n: nat)
    requires words != [] && IsWord(n) && Next(words[|words| - 1], Initial(n)) == n && words[|words| - 1] <= 22
    requires forall i | 0 <= i < |words| :: Follows(0, words, i) && (i < |words| - 1 ==> words[i] <= 22)
    ensures forall i | 0 <= i < |words + [n]| :: Follows(0, words + [n], i) && (i < |words| ==> (words + [n])[i] <= 22)
  {
    hide Next, Initial;
    forall i | 0 <= i < |words + [n]| ensures Follows(0, words + [n], i) && (i < |words| ==> (words + [n])[i] <= 22) {
      assert i < |words| ==> Follows(0, words, i);
    }
  }

  lemma WordsLead(r: Reason)
    requires !r.Other?
    ensures Leads(0, Path(End(r))) && Path(End(r))[|Path(End(r))| - 1] == End(r)
  {
    assert 100 < End(r) <= 136;
    hide Next, Initial, Path, End, Follows;
    PathLeads(End(r));
  }

  lemma EndTells(ctid: string, r: Reason, s: Reason)
    requires !r.Other? && !s.Other? && End(r) == End(s) && Tail(ctid, r) == Tail(ctid, s)
    ensures r == s
  {}

  /** Different reasons on an item never share a text. */
  lemma TextsDiffer(ctid: string, r: Reason, s: Reason)
    requires !r.Other? && !s.Other?
    ensures Text(ctid, r) == Text(ctid, s) <==> r == s
  {
    hide Spell, Leads, Path, End, Tail;
    if Text(ctid, r) == Text(ctid, s) {
      WordsLead(r);
      WordsLead(s);
      SpellTells(0, Path(End(r)), Path(End(s)), Tail(ctid, r), Tail(ctid, s));
      EndTells(ctid, r, s);
    }
  }

  /** Of the reasons of a dispute only the award itself starts like an award. */
  lemma OnlyAwardsAward(ctid: string, r: Reason)
    requires !r.Other? && RegCredit.AWARD_PREFIX <= Text(ctid, r)
    ensures r == CreditAward
  {
    var rest := Text(ctid, r)[|RegCredit.AWARD_PREFIX|..];
    assert Text(ctid, r) == RegCredit.AWARD_PREFIX + rest;
    AwardSpelled();
    hide Spell, Leads, Path, End, Tail, RegCredit.AWARD_PREFIX;
    WordsLead(r);
    WordsLead(CreditAward);
    SpellTells(0, Path(End(r)), Path(End(CreditAward)), Tail(ctid, r), rest);
    EndIsAward(r);
  }

  lemma AwardSpelled()
    ensures Spell(Path(End(CreditAward))) == RegCredit.AWARD_PREFIX
  {
    assert Path(101) == Path(2) + [101] && Path(2) == Path(1) + [2] && Path(1) == [1];
    assert Path(101) == [1, 2, 101];
    assert [1, 2, 101][1..] == [2, 101] && [2, 101][1..] == [101] && [101][1..] == [];
    assert Spell([101]) == ":" && Spell([2, 101]) == "g_credit:";
  }

  lemma EndIsAward(r: Reason)
    ensures End(r) == End(CreditAward) ==> r == CreditAward
  {}
}
