/** The scores table as the commit handler keeps it: node/src/consensus/commit-handler.js. */
module CommitRows {
  // A row holds a score and an offence count, but not whether the identity was revoked, and the platforms
  // linked so far are read back from the log. Rows are stepped in commit order and the replay sorts by
  // timestamp; this file says exactly when the two agree on logs that are committed in timestamp order, and
  // CommitOrder what commit order adds to that.

  import opened Common
  import opened Score
  import opened ScoreReplay

  datatype Row = Row(score: int, offenses: int)

  /** The platforms of the links that mention an identity. */
  function PriorLinks(log: seq<Tx>, id: string): set<string> {
    if log == [] then {} else
    var last := log[|log| - 1];
    PriorLinks(log[..|log| - 1], id) +
    if last.kind.LinkPlatform? && last.platform.Some? && Mentions(last, id)
    then {last.platform.value} else {}
  }

  /** The state the handler steps: never frozen. */
  function RowState(log: seq<Tx>, tx: Tx, score: int, offenses: int): State {
    State(score, offenses, false,
          if tx.kind.LinkPlatform? && tx.tipId.Some? then PriorLinks(log, tx.tipId.value) else {})
  }

  /** The row of an identity after a log. */
  function RowOf(p: Params, log: seq<Tx>, id: string): Row {
    if log == [] then Row(p.initial, 0) else
    var before, last := log[..|log| - 1], log[|log| - 1];
    var row := RowOf(p, before, id);
    if Target(last) != Some(id) then row else
    var next := Apply(p, last, RowState(before, last, row.score, row.offenses));
    Row(next.score, next.offenses)
  }

  /** The table of a log: every identity's row, and a row for everybody whom a transaction targets. */
  ghost predicate TableOf(p: Params, rows: map<string, Row>, log: seq<Tx>) {
    && (forall id :: (if id in rows then rows[id] else Row(p.initial, 0)) == RowOf(p, log, id))
    && forall tx | tx in log && Target(tx).Some? :: Target(tx).value in rows
  }

  /** _applyScoreEffect of the commit handler, for the transaction that was just added to `log`. */
  method ApplyCommitted(p: Params, rows: map<string, Row>, log: seq<Tx>, tx: Tx) returns (next: map<string, Row>)
    requires TableOf(p, rows, log)
    ensures TableOf(p, next, log + [tx])
    ensures Target(tx).Some? ==> Target(tx).value in next
  {
    assert (log + [tx])[..|log|] == log;
    var target := Target(tx);
    if target.None? {
      return rows;
    }
    var id := target.value;
    var cur := if id in rows then RowState(log, tx, rows[id].score, rows[id].offenses)
               else RowState(log, tx, p.initial, 0);
    var state := Apply(p, tx, cur);
    if id in rows && state.score == cur.score && state.offenses == cur.offenses {
      return rows;
    }
    next := rows[id := Row(state.score, state.offenses)];
  }

  /** Links are recorded for their own identity only; the transaction schema has neither an author nor a signer field. */
  ghost predicate LinksOwn(log: seq<Tx>) {
    forall tx | tx in log && tx.kind.LinkPlatform? :: tx.authorTipId.None? && tx.signerTipId.None?
  }

  lemma {:induction false} LinksReadBack(p: Params, log: seq<Tx>, id: string)
    requires LinksOwn(log)
    ensures PriorLinks(log, id) == ScoreOf(p, log, id).links
  {
    if log != [] {
      assert log[|log| - 1] in log;
      LinksReadBack(p, log[..|log| - 1], id);
      ScoreOfStep(p, log, id);
    }
  }

  /** The row shows the replayed score and offence count. */
  ghost predicate Agrees(p: Params, log: seq<Tx>, id: string) {
    RowOf(p, log, id) == Row(Replay(p, log, id).score, Replay(p, log, id).offenses)
  }

  /** A credit that the replay drops because the identity was revoked, and that would have moved the score. */
  ghost predicate LateCredit(p: Params, tx: Tx, s: State) {
    s.frozen && RawDelta(p, tx, s) > 0 && s.score < p.maxTotal
  }

  ghost predicate CreditAfterFreeze(p: Params, before: seq<Tx>, tx: Tx, id: string) {
    Target(tx) == Some(id) && LateCredit(p, tx, Replay(p, before, id))
  }

  /** In timestamp order the replay of a log and of all but its last transaction are folds of the log. */
  lemma ReplayStep(p: Params, log: seq<Tx>, id: string)
    requires log != [] && Ordered(log)
    ensures var before, last := log[..|log| - 1], log[|log| - 1];
      && Ordered(before) && Replay(p, before, id) == ScoreOf(p, before, id)
      && Replay(p, log, id) == if Target(last) == Some(id) then Apply(p, last, Replay(p, before, id)) else Replay(p, before, id)
  {
    ReplayIsScoreOf(p, log, id);
    ReplayIsScoreOf(p, log[..|log| - 1], id);
    ScoreOfStep(p, log, id);
  }

  /** The replayed state is sound, and its platforms are those read back from the log. */
  lemma ReplaySound(p: Params, log: seq<Tx>, id: string)
    requires ValidParams(p) && LinksOwn(log) && Ordered(log)
    ensures InRange(p, Replay(p, log, id)) && PriorLinks(log, id) == Replay(p, log, id).links
  {
    ReplayIsScoreOf(p, log, id);
    LinksReadBack(p, log, id);
    RunInRange(p, Targeting(log, id), InitialState(p));
  }

  /** Row and replay take the same transaction: the row ends no lower, and from the same score the two
      end at the same score unless it is a late credit. */
  lemma StepCompared(p: Params, before: seq<Tx>, tx: Tx, s: State, score: int, id: string)
    requires ValidParams(p) && InRange(p, s) && s.score <= score <= p.maxTotal
    requires PriorLinks(before, id) == s.links && Target(tx) == Some(id)
    ensures var row, next := Apply(p, tx, RowState(before, tx, score, s.offenses)), Apply(p, tx, s);
      && row.offenses == next.offenses && next.score <= row.score <= p.maxTotal
      && (score == s.score ==> (row.score == next.score <==> !LateCredit(p, tx, s)))
  {
    assert tx.kind.LinkPlatform? ==> tx.tipId == Some(id);
    assert RawDelta(p, tx, s) == RawDelta(p, tx, RowState(before, tx, score, s.offenses));
    hide PriorLinks, Target;
  }

  /** One transaction keeps row and replay together exactly when it is no such credit. */
  lemma AgreementStep(p: Params, log: seq<Tx>, id: string)
    requires ValidParams(p) && log != [] && LinksOwn(log) && Ordered(log)
    requires Agrees(p, log[..|log| - 1], id)
    ensures Agrees(p, log, id) <==> !CreditAfterFreeze(p, log[..|log| - 1], log[|log| - 1], id)
  {
    var before, last := log[..|log| - 1], log[|log| - 1];
    assert LinksOwn(before);
    hide ScoreOf, Replay, LinksOwn, Ordered, LateCredit, RowState, Apply, ValidParams, Target;
    ReplayStep(p, log, id);
    ReplaySound(p, before, id);
    if Target(last) == Some(id) {
      var s := Replay(p, before, id);
      StepCompared(p, before, last, s, s.score, id) by { InRangeMeans(p, s); }
    }
  }

  lemma InRangeMeans(p: Params, s: State)
    requires InRange(p, s)
    ensures s.score <= p.maxTotal
  {}

  /** Table and replay agree now and agreed after every earlier transaction. */
  ghost predicate AlwaysAgrees(p: Params, log: seq<Tx>, id: string) {
    Agrees(p, log, id) && (log != [] ==> AlwaysAgrees(p, log[..|log| - 1], id))
  }

  /** No credit of the log falls after a revocation of the identity it credits. */
  ghost predicate NoLateCredit(p: Params, log: seq<Tx>, id: string) {
    log != [] ==>
      NoLateCredit(p, log[..|log| - 1], id) && !CreditAfterFreeze(p, log[..|log| - 1], log[|log| - 1], id)
  }

  /** Table and replay agree throughout a log in timestamp order exactly when it holds no late credit. */
  lemma {:induction false} RowsMatchReplayIff(p: Params, log: seq<Tx>, id: string)
    requires ValidParams(p) && LinksOwn(log) && Ordered(log)
    ensures AlwaysAgrees(p, log, id) <==> NoLateCredit(p, log, id)
  {
    if log == [] {
      NothingReplayed(p, id);
      assert Agrees(p, log, id);
    } else {
      var before := log[..|log| - 1];
      assert LinksOwn(before) && Ordered(before);
      RowsMatchReplayIff(p, before, id);
      hide Agrees, CreditAfterFreeze;
      if AlwaysAgrees(p, before, id) {
        AgreementStep(p, log, id);
      }
    }
  }

  lemma NothingReplayed(p: Params, id: string)
    ensures Replay(p, [], id) == InitialState(p)
  {}

  /** In timestamp order, without any other proviso: the two never differ in offences, and the table
      never shows less. */
  lemma {:induction false} RowsNeverBelowReplay(p: Params, log: seq<Tx>, id: string)
    requires ValidParams(p) && LinksOwn(log) && Ordered(log)
    ensures RowOf(p, log, id).offenses == Replay(p, log, id).offenses
    ensures Replay(p, log, id).score <= RowOf(p, log, id).score <= p.maxTotal
  {
    if log == [] {
      NothingReplayed(p, id);
    } else {
      var before, last := log[..|log| - 1], log[|log| - 1];
      assert LinksOwn(before) && Ordered(before);
      RowsNeverBelowReplay(p, before, id);
      hide ScoreOf, Replay, LinksOwn, Ordered, RowState, Apply, Target;
      ReplayStep(p, log, id);
      ReplaySound(p, before, id);
      if Target(last) == Some(id) {
        StepCompared(p, before, last, Replay(p, before, id), RowOf(p, before, id).score, id);
      }
    }
  }

  /** getScore: the row if there is one, the replay otherwise. Row or no row, for every log it answers
      with the row-wise fold; and with the replay where the two agree. */
  method GetScore(p: Params, rows: map<string, Row>, log: seq<Tx>, id: string) returns (r: Row)
    requires TableOf(p, rows, log)
    ensures r == RowOf(p, log, id)
    ensures ValidParams(p) && LinksOwn(log) && Ordered(log) && NoLateCredit(p, log, id) ==>
      r == Row(Replay(p, log, id).score, Replay(p, log, id).offenses)
  {
    if ValidParams(p) && LinksOwn(log) && Ordered(log) && NoLateCredit(p, log, id) {
      RowsMatchReplayIff(p, log, id);
      assert Agrees(p, log, id);
    }
    if id in rows {
      return rows[id];
    }
    Untargeted(p, log, id);
    var state, _ := ComputeScore(p, log, id);
    return Row(state.score, state.offenses);
  }

  lemma Untargeted(p: Params, log: seq<Tx>, id: string)
    requires forall tx | tx in log :: Target(tx) != Some(id)
    ensures Replay(p, log, id) == InitialState(p)
  {
    ReplayIsSortedFold(p, log, id);
    NoneTarget(log, id);
  }

  lemma {:induction false} NoneTarget(log: seq<Tx>, id: string)
    requires forall tx | tx in log :: Target(tx) != Some(id)
    ensures Targeting(log, id) == []
  {
    if log != [] {
      NoneTarget(log[..|log| - 1], id);
    }
  }

  /** A revocation, then a credit: the two ways part. */
  lemma FreezeIsForgotten(p: Params, id: string, t: int) returns (log: seq<Tx>)
    requires ValidParams(p) && p.initial < p.maxTotal
    ensures Ordered(log) && LinksOwn(log) && !Agrees(p, log, id)
  {
    var revoke := Tx(RevokeVp, t, Some(id), None, None, None, None, None, None, false);
    var credit := Tx(ScoreUpdate, t, Some(id), None, None, None, Some(1), None, None, false);
    log := [revoke, credit];
    var first := [revoke];
    assert log[..1] == first && first[..0] == [];
    NothingReplayed(p, id);
    ReplayStep(p, first, id);
    assert Replay(p, first, id) == State(p.initial, 0, true, {}) && RowOf(p, first, id) == Row(p.initial, 0);
    hide Replay, RowOf;
    AgreementStep(p, log, id);
  }
}
