/**
 The score entries of one content item: who is credited or charged how much and for what, and how the
 chain drops repeated entries (node/src/jury.js, node/src/scoring.js, node/src/consensus/commit-handler.js).
 */
module Ledger {
  datatype Tier = JuryTier | ExpertTier

  /** What an entry is for. All entries here belong to one content item, so its identifier is left out. */
  datatype Reason =
    // at registration, at filing, at appeal
    | CreditAward | DisputeStake | AppealStake
    // either stage
    | CreditReversal | CreditRestore | DisputeRefunded
    | MajorityVote(tier: Tier) | MinorityVote(tier: Tier) | NoReveal(tier: Tier) | NoCommit(tier: Tier)
    // the jury's verdict
    | AuthorPenalty | DisputeUpheld | DisputeConservative | Vindication
    | ReviewBonus(review: string) | WrongDismiss(review: string)
    // an appeal
    | AppealRefunded | AppealOverturned | SettlementReversed | StakeRefundedBonus | PenaltyReversed
    | AppealVindication | MismatchConfirmed | VindicationRetracted
    | ReviewBonusReversed | ReviewBonusOnAppeal(review: string) | WrongDismissReversed
    // the experts' verdict after a jury that decided nothing
    | Stage3Upheld | Stage3Penalty | Stage3Conservative
    | ReviewBonusNoQuorum(review: string) | WrongDismissNoQuorum(review: string)
    // anything else the item gave rise to
    | Other(text: string)

  datatype Update = Update(tip: string, delta: int, reason: Reason)

  // ---------------------------------------------------------------- first wins

  /** Two entries with the same key are the same entry to the chain. */
  predicate SameKey(u: Update, v: Update) {
    u.tip == v.tip && u.reason == v.reason
  }

  predicate Holds(log: seq<Update>, u: Update) {
    exists i | 0 <= i < |log| :: SameKey(log[i], u)
  }

  /** The log after entries arrive one by one; an entry whose key is already there is dropped. */
  function FirstWins(log: seq<Update>, arriving: seq<Update>): seq<Update> {
    if arriving == [] then log else
    var before, u := FirstWins(log, arriving[..|arriving| - 1]), arriving[|arriving| - 1];
    if u.tip != "" && Holds(before, u) then before else before + [u]
  }

  lemma HoldsAppend(a: seq<Update>, b: seq<Update>, u: Update)
    ensures Holds(a + b, u) <==> Holds(a, u) || Holds(b, u)
  {
    if i :| 0 <= i < |a| && SameKey(a[i], u) {
      assert SameKey((a + b)[i], u);
    }
    if i :| 0 <= i < |b| && SameKey(b[i], u) {
      assert SameKey((a + b)[|a| + i], u);
    }
  }

  ghost predicate DistinctEntries(us: seq<Update>) {
    forall i, j | 0 <= i < j < |us| :: !SameKey(us[i], us[j])
  }

  ghost predicate Apart(a: seq<Update>, b: seq<Update>) {
    forall u, v | u in a && v in b :: !SameKey(u, v)
  }

  lemma DistinctConcat(a: seq<Update>, b: seq<Update>)
    ensures DistinctEntries(a + b) <==> DistinctEntries(a) && DistinctEntries(b) && Apart(a, b)
  {
    var ab := a + b;
    if DistinctEntries(ab) {
      forall i, j | 0 <= i < j < |a| ensures !SameKey(a[i], a[j]) {
        assert !SameKey(ab[i], ab[j]);
      }
      forall i, j | 0 <= i < j < |b| ensures !SameKey(b[i], b[j]) {
        assert !SameKey(ab[|a| + i], ab[|a| + j]);
      }
      forall u, v | u in a && v in b ensures !SameKey(u, v) {
        var i :| 0 <= i < |a| && a[i] == u;
        var j :| 0 <= j < |b| && b[j] == v;
        assert !SameKey(ab[i], ab[|a| + j]);
      }
    }
    if DistinctEntries(a) && DistinctEntries(b) && Apart(a, b) {
      forall i, j | 0 <= i < j < |ab| ensures !SameKey(ab[i], ab[j]) {
        if i < |a| <= j {
          assert a[i] in a && b[j - |a|] in b;
        }
      }
    }
  }

  lemma {:induction false} FirstWinsAppend(log: seq<Update>, a: seq<Update>, b: seq<Update>)
    ensures FirstWins(log, a + b) == FirstWins(FirstWins(log, a), b)
  {
    if b == [] {
      assert a + b == a;
    } else {
      FirstWinsAppend(log, a, b[..|b| - 1]);
      assert (a + b)[..|a + b| - 1] == a + b[..|b| - 1];
    }
  }

  /** Entries that are new to the log all land. */
  lemma {:induction false} AllLand(log: seq<Update>, us: seq<Update>)
    requires DistinctEntries(us) && Apart(log, us)
    ensures FirstWins(log, us) == log + us
  {
    if us == [] {
      assert log + us == log;
    } else {
      var n := |us| - 1;
      var before, u := us[..n], us[n];
      assert us == before + [u];
      DistinctConcat(before, [u]);
      AllLand(log, before);
      HoldsAppend(log, before, u);
      assert u in [u];
      assert log + before + [u] == log + us;
    }
  }

  ghost predicate Named(us: seq<Update>) {
    forall u | u in us :: u.tip != ""
  }

  /** Entries with the same key are the same entry altogether. */
  ghost predicate KeysTell(us: seq<Update>) {
    forall u, v | u in us && v in us && SameKey(u, v) :: u == v
  }

  /** Whatever arrives, what lands is each entry that is new to the log, once. */
  lemma {:induction false} MixtureLands(log: seq<Update>, mixture: seq<Update>) returns (landed: seq<Update>)
    requires KeysTell(mixture) && Named(mixture)
    ensures FirstWins(log, mixture) == log + landed && DistinctEntries(landed)
    ensures forall u :: u in landed <==> u in mixture && !Holds(log, u)
  {
    if mixture == [] {
      landed := [];
      assert log + landed == log;
    } else {
      var some, u := mixture[..|mixture| - 1], mixture[|mixture| - 1];
      assert mixture == some + [u];
      assert KeysTell(some) && Named(some) by { TellsLess(some, u); }
      var before := MixtureLands(log, some);
      OneLands(log, before, some, u);
      FirstWinsStep(log, some, u);
      landed := if Holds(log, u) || u in before then before else before + [u];
      AssocAt(log, before, u);
      hide *;
    }
  }

  lemma TellsLess(some: seq<Update>, u: Update)
    requires KeysTell(some + [u]) && Named(some + [u])
    ensures KeysTell(some) && Named(some)
  {
    assert forall v | v in some :: v in some + [u];
  }

  lemma FirstWinsStep(log: seq<Update>, some: seq<Update>, u: Update)
    ensures FirstWins(log, some + [u]) ==
      var before := FirstWins(log, some); if u.tip != "" && Holds(before, u) then before else before + [u]
  {
    assert (some + [u])[..|some|] == some;
  }

  lemma AssocAt(a: seq<Update>, b: seq<Update>, u: Update)
    ensures a + b + [u] == a + (b + [u])
  {}

  lemma OneLands(log: seq<Update>, before: seq<Update>, some: seq<Update>, u: Update)
    requires KeysTell(some + [u]) && Named(some + [u])
    requires DistinctEntries(before) && forall v | v in before :: v in some
    ensures u.tip != "" && (Holds(log + before, u) <==> Holds(log, u) || u in before)
    ensures u !in before ==> DistinctEntries(before + [u])
  {
    assert u in some + [u] && forall v | v in some :: v in some + [u];
    HoldsAppend(log, before, u);
    assert Holds(before, u) <==> u in before by {
      if i :| 0 <= i < |before| && SameKey(before[i], u) {
        assert before[i] in some;
      }
      if u in before {
        var i :| 0 <= i < |before| && before[i] == u;
        assert SameKey(before[i], u);
      }
    }
    if u !in before {
      assert Apart(before, [u]) by {
        forall v, w | v in before && w in [u] ensures !SameKey(v, w) {
          var i :| 0 <= i < |before| && before[i] == v;
        }
      }
      DistinctConcat(before, [u]);
    }
  }

  lemma {:induction false} DistinctMultiset(us: seq<Update>)
    requires DistinctEntries(us)
    ensures multiset(us) == multiset(set u | u in us)
  {
    if us != [] {
      var n := |us| - 1;
      assert us == us[..n] + [us[n]];
      DistinctConcat(us[..n], [us[n]]);
      DistinctMultiset(us[..n]);
      assert us[n] !in us[..n];
      assert (set u | u in us) == (set u | u in us[..n]) + {us[n]};
    }
  }

  lemma DistinctTells(us: seq<Update>)
    requires DistinctEntries(us)
    ensures KeysTell(us)
  {
    forall u, v | u in us && v in us && SameKey(u, v) ensures u == v {
      var i :| 0 <= i < |us| && us[i] == u;
      var j :| 0 <= j < |us| && us[j] == v;
    }
  }

  /** Several nodes submit the same batch and their entries arrive interleaved, some more than once: if
      each arrives at least once, the log ends as if one batch had been applied, on any log and also where
      it holds some of the entries already. */
  lemma CompetingBatches(log: seq<Update>, batch: seq<Update>, mixture: seq<Update>)
    requires KeysTell(batch) && Named(batch)
    requires forall u :: u in mixture <==> u in batch
    ensures multiset(FirstWins(log, mixture)) == multiset(FirstWins(log, batch))
    ensures FirstWins(log, batch + batch) == FirstWins(log, batch)
  {
    assert KeysTell(mixture) && Named(mixture);
    var a := MixtureLands(log, batch);
    var b := MixtureLands(log, mixture);
    DistinctMultiset(a);
    DistinctMultiset(b);
    assert (set u | u in a) == (set u | u in b);
    assert multiset(log + a) == multiset(log) + multiset(a) && multiset(log + b) == multiset(log) + multiset(b);
    FirstWinsAppend(log, batch, batch);
    AllHeld(log, batch);
    hide FirstWins;
    Repeats(FirstWins(log, batch), batch);
  }

  /** Everything that has arrived is held. */
  lemma {:induction false} AllHeld(log: seq<Update>, us: seq<Update>)
    ensures forall u | u in log || u in us :: Holds(FirstWins(log, us), u)
  {
    if us == [] {
      forall u | u in log ensures Holds(log, u) {
        var i :| 0 <= i < |log| && log[i] == u;
        assert SameKey(log[i], u);
      }
    } else {
      var some, u := us[..|us| - 1], us[|us| - 1];
      assert us == some + [u];
      AllHeld(log, some);
      HeldAfter(FirstWins(log, some), u);
      hide Holds;
    }
  }

  lemma HeldAfter(before: seq<Update>, u: Update)
    ensures var after := if u.tip != "" && Holds(before, u) then before else before + [u];
      Holds(after, u) && forall v | Holds(before, v) :: Holds(after, v)
  {
    HoldsAppend(before, [u], u);
    assert Holds([u], u) by { assert SameKey([u][0], u); }
    forall v | Holds(before, v) ensures Holds(before + [u], v) {
      HoldsAppend(before, [u], v);
    }
  }

  lemma {:induction false} Repeats(log: seq<Update>, again: seq<Update>)
    requires Named(again) && forall u | u in again :: Holds(log, u)
    ensures FirstWins(log, again) == log
  {
    if again != [] {
      assert again[|again| - 1] in again;
      Repeats(log, again[..|again| - 1]);
    }
  }

  // ---------------------------------------------------------------- sides

  /** The accounts a dispute settles. */
  datatype Side = Disputing | Penalty | Exoneration | Credit | Appealing | Reviewing | Clawback | Seat(tier: Tier) | Elsewhere

  function SideOf(r: Reason): Side {
    match r
    case DisputeStake | DisputeUpheld | DisputeConservative | DisputeRefunded | SettlementReversed
       | StakeRefundedBonus | Stage3Upheld | Stage3Conservative => Disputing
    case AuthorPenalty | PenaltyReversed | MismatchConfirmed | Stage3Penalty => Penalty
    case Vindication | AppealVindication | VindicationRetracted => Exoneration
    case CreditAward | CreditReversal | CreditRestore => Credit
    case AppealStake | AppealRefunded | AppealOverturned => Appealing
    case ReviewBonus(_) | ReviewBonusReversed | ReviewBonusOnAppeal(_) | ReviewBonusNoQuorum(_) => Reviewing
    case WrongDismiss(_) | WrongDismissReversed | WrongDismissNoQuorum(_) => Clawback
    case MajorityVote(t) => Seat(t)
    case MinorityVote(t) => Seat(t)
    case NoReveal(t) => Seat(t)
    case NoCommit(t) => Seat(t)
    case Other(_) => Elsewhere
  }

  /** The sum of the entries on one side. */
  function Net(us: seq<Update>, side: Side): int {
    if us == [] then 0
    else Net(us[..|us| - 1], side) + if SideOf(us[|us| - 1].reason) == side then us[|us| - 1].delta else 0
  }

  lemma {:induction false} NetAppend(a: seq<Update>, b: seq<Update>, side: Side)
    ensures Net(a + b, side) == Net(a, side) + Net(b, side)
  {
    if b == [] {
      assert a + b == a;
    } else {
      NetAppend(a, b[..|b| - 1], side);
      assert (a + b)[..|a + b| - 1] == a + b[..|b| - 1];
    }
  }

  lemma {:induction false} NetNone(us: seq<Update>, side: Side)
    requires forall u | u in us :: SideOf(u.reason) != side
    ensures Net(us, side) == 0
  {
    if us != [] {
      NetNone(us[..|us| - 1], side);
    }
  }

  /** What one holder of a seat has been paid and charged. */
  function NetOf(us: seq<Update>, tip: string, side: Side): int {
    if us == [] then 0 else
    var u := us[|us| - 1];
    NetOf(us[..|us| - 1], tip, side) + if u.tip == tip && SideOf(u.reason) == side then u.delta else 0
  }

  lemma {:induction false} NetOfAppend(a: seq<Update>, b: seq<Update>, tip: string, side: Side)
    ensures NetOf(a + b, tip, side) == NetOf(a, tip, side) + NetOf(b, tip, side)
  {
    if b == [] {
      assert a + b == a;
    } else {
      NetOfAppend(a, b[..|b| - 1], tip, side);
      assert (a + b)[..|a + b| - 1] == a + b[..|b| - 1];
    }
  }

  lemma {:induction false} NetOfNone(us: seq<Update>, tip: string, side: Side)
    requires forall u | u in us && u.tip == tip :: SideOf(u.reason) != side
    ensures NetOf(us, tip, side) == 0
  {
    if us != [] {
      NetOfNone(us[..|us| - 1], tip, side);
    }
  }
}
