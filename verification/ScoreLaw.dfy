/** The score as a sum over the whole history, without any running state (node/src/score-effects.js). */
module ScoreLaw {
  import opened Common
  import opened Score

  /** A revocation of any kind stands among the first n transactions. */
  ghost predicate RevokedBy(txs: seq<Tx>, n: nat)
    requires n <= |txs|
  {
    exists i | 0 <= i < n :: txs[i].kind in {RevokeVoluntary, RevokeVp, RevokeDeceased, RevokeDevice}
  }

  /** The platforms that the first n transactions link. */
  ghost function LinkedBy(txs: seq<Tx>, n: nat): set<string>
    requires n <= |txs|
  {
    set i | 0 <= i < n && txs[i].kind.LinkPlatform? && txs[i].platform.Some? :: txs[i].platform.value
  }

  /** What a transaction is worth after a history: a score update its delta, a link the bonus if its platform
      is new and there is room for one more, anything else nothing; and no credit after a revocation. */
  ghost function WorthAfter(p: Params, tx: Tx, linked: set<string>, revoked: bool): int {
    var raw :=
      if tx.kind.ScoreUpdate? && tx.delta.Some? then tx.delta.value
      else if tx.kind.LinkPlatform? && tx.platform.Some? && tx.platform.value !in linked && |linked| < p.maxLinks then p.linkBonus
      else 0;
    if raw > 0 && revoked then 0 else raw
  }

  ghost function Worth(p: Params, txs: seq<Tx>, n: nat): int
    requires n < |txs|
  {
    WorthAfter(p, txs[n], LinkedBy(txs, n), RevokedBy(txs, n))
  }

  /** The initial score and the worth of each of the first n, kept within the range at every step. */
  ghost function Balance(p: Params, txs: seq<Tx>, n: nat): int
    requires n <= |txs|
  {
    if n == 0 then p.initial else Max(0, Min(p.maxTotal, Balance(p, txs, n - 1) + Worth(p, txs, n - 1)))
  }

  lemma {:induction false} BalanceOfPrefix(p: Params, before: seq<Tx>, last: Tx, n: nat)
    requires n <= |before|
    ensures Balance(p, before + [last], n) == Balance(p, before, n)
    ensures RevokedBy(before + [last], n) == RevokedBy(before, n) && LinkedBy(before + [last], n) == LinkedBy(before, n)
  {
    var txs := before + [last];
    assert forall i | 0 <= i < |before| :: txs[i] == before[i];
    if n > 0 {
      BalanceOfPrefix(p, before, last, n - 1);
      hide Balance, RevokedBy, LinkedBy;
      assert Worth(p, txs, n - 1) == Worth(p, before, n - 1);
      BalanceStep(p, txs, n);
      BalanceStep(p, before, n);
    }
  }

  lemma BalanceStep(p: Params, txs: seq<Tx>, n: nat)
    requires 0 < n <= |txs|
    ensures Balance(p, txs, n) == Max(0, Min(p.maxTotal, Balance(p, txs, n - 1) + Worth(p, txs, n - 1)))
  {
    hide Worth;
  }

  lemma ApplyIs(p: Params, tx: Tx, cur: State)
    requires ValidParams(p) && InRange(p, cur)
    ensures Apply(p, tx, cur).score == Max(0, Min(p.maxTotal, cur.score + WorthAfter(p, tx, cur.links, cur.frozen)))
  {}

  /** Over any history: the score is that balance, the identity is frozen exactly if it was ever revoked, and
      its links are all that were ever made. */
  lemma {:induction false} RunLaw(p: Params, txs: seq<Tx>)
    requires ValidParams(p)
    ensures var s := Run(p, txs, InitialState(p));
      s.score == Balance(p, txs, |txs|) && s.frozen == RevokedBy(txs, |txs|) && s.links == LinkedBy(txs, |txs|)
  {
    if txs != [] {
      var before, last := txs[..|txs| - 1], txs[|txs| - 1];
      var cur := Run(p, before, InitialState(p));
      assert Run(p, txs, InitialState(p)) == Apply(p, last, cur);
      assert txs == before + [last];
      RunInRange(p, before, InitialState(p));
      OneMore(txs, cur, p);
      hide Run, InitialState, Balance, RevokedBy, LinkedBy, WorthAfter, ValidParams, Apply;
      RunLaw(p, before);
      BalanceOfPrefix(p, before, last, |before|);
      BalanceStep(p, txs, |txs|);
      ApplyIs(p, last, cur);
    }
  }

  lemma OneMore(txs: seq<Tx>, cur: State, p: Params)
    requires txs != []
    ensures var n, last := |txs| - 1, txs[|txs| - 1];
      && (cur.frozen == RevokedBy(txs, n) ==> Apply(p, last, cur).frozen == RevokedBy(txs, n + 1))
      && (cur.links == LinkedBy(txs, n) ==> Apply(p, last, cur).links == LinkedBy(txs, n + 1))
  {
    var n, last := |txs| - 1, txs[|txs| - 1];
    assert RevokedBy(txs, n + 1) <==> RevokedBy(txs, n) || IsRevocation(last.kind);
    assert LinkedBy(txs, n + 1) ==
      LinkedBy(txs, n) + if last.kind.LinkPlatform? && last.platform.Some? then {last.platform.value} else {};
    hide RevokedBy, LinkedBy;
  }
}
