/** Commit order against timestamp order: when any order of a block of score entries gives the same row and replay. */
module CommitOrder {
  // Consensus commits by round and then by author node (node/src/consensus/bullshark.js); the replay sorts
  // by timestamp. Adding up scores forgets order except where the range clamps.

  import opened Common
  import opened Score
  import opened ScoreReplay
  import opened CommitRows

  function Amount(tx: Tx): int {
    if tx.delta.Some? then tx.delta.value else 0
  }

  /** What the credits and what the penalties of a block come to. */
  function Credits(txs: seq<Tx>): (n: int)
    ensures n >= 0
  {
    if txs == [] then 0 else Credits(txs[..|txs| - 1]) + Max(0, Amount(txs[|txs| - 1]))
  }

  function Penalties(txs: seq<Tx>): (n: int)
    ensures n >= 0
  {
    if txs == [] then 0 else Penalties(txs[..|txs| - 1]) + Max(0, -Amount(txs[|txs| - 1]))
  }

  /** A score after a block, clamped at each entry. */
  function Clamped(max: int, s: int, txs: seq<Tx>): int {
    if txs == [] then s else Max(0, Min(max, Clamped(max, s, txs[..|txs| - 1]) + Amount(txs[|txs| - 1])))
  }

  /** Every entry of the block is a score update of the identity. */
  ghost predicate ScoreOnly(txs: seq<Tx>, id: string) {
    forall tx | tx in txs :: tx.kind.ScoreUpdate? && tx.tipId == Some(id)
  }

  ghost predicate Later(log: seq<Tx>, txs: seq<Tx>) {
    forall x, y | x in log && y in txs :: x.timestamp <= y.timestamp
  }

  ghost predicate Permutes(q: seq<Tx>, txs: seq<Tx>) {
    multiset(q) == multiset(txs)
  }

  // ---------------------------------------------------------------- sums forget order

  lemma {:induction false} SumsConcat(a: seq<Tx>, b: seq<Tx>)
    ensures Credits(a + b) == Credits(a) + Credits(b) && Penalties(a + b) == Penalties(a) + Penalties(b)
  {
    if b == [] {
      assert a + b == a;
    } else {
      SumsConcat(a, b[..|b| - 1]);
      assert (a + b)[..|a + b| - 1] == a + b[..|b| - 1];
    }
  }

  lemma OneSum(tx: Tx)
    ensures Credits([tx]) == Max(0, Amount(tx)) && Penalties([tx]) == Max(0, -Amount(tx))
  {
    assert [tx][..0] == [];
  }

  lemma {:induction false} SameSums(xs: seq<Tx>, ys: seq<Tx>)
    requires Permutes(xs, ys)
    ensures Credits(xs) == Credits(ys) && Penalties(xs) == Penalties(ys)
  {
    assert |multiset(xs)| == |multiset(ys)|;
    if xs != [] {
      var x, before := xs[|xs| - 1], xs[..|xs| - 1];
      assert xs == before + [x];
      var i := PlaceOf(ys, x) by { assert x in multiset(xs); }
      var a, b := ys[..i], ys[i + 1..];
      assert ys == a + [x] + b;
      RemoveOne(before, a, b, x);
      SameSums(before, a + b);
      hide Credits, Penalties;
      OneSum(x);
      SumsConcat(before, [x]);
      SumsConcat(a, b);
      SumsConcat(a, [x]);
      SumsConcat(a + [x], b);
    }
  }

  lemma RemoveOne(before: seq<Tx>, a: seq<Tx>, b: seq<Tx>, x: Tx)
    requires Permutes(before + [x], a + [x] + b)
    ensures Permutes(before, a + b)
  {
    assert multiset(before + [x]) == multiset(before) + multiset{x};
    assert multiset(a + [x] + b) == multiset(a + b) + multiset{x};
    var m, n := multiset(before), multiset(a + b);
    forall y: Tx ensures m[y] == n[y] {
      assert (m + multiset{x})[y] == (n + multiset{x})[y];
    }
  }

  lemma PlaceOf(ys: seq<Tx>, x: Tx) returns (i: nat)
    requires x in multiset(ys)
    ensures i < |ys| && ys[i] == x
  {
    assert x in ys;
    i :| 0 <= i < |ys| && ys[i] == x;
  }

  // ---------------------------------------------------------------- clamping

  lemma {:induction false} ClampedRange(max: int, s: int, txs: seq<Tx>)
    requires 0 <= s <= max
    ensures 0 <= Clamped(max, s, txs) <= max
  {
    if txs != [] {
      ClampedRange(max, s, txs[..|txs| - 1]);
    }
  }

  lemma {:induction false} ClampedConcat(max: int, s: int, a: seq<Tx>, b: seq<Tx>)
    ensures Clamped(max, s, a + b) == Clamped(max, Clamped(max, s, a), b)
  {
    if b == [] {
      assert a + b == a;
    } else {
      ClampedConcat(max, s, a, b[..|b| - 1]);
      assert (a + b)[..|a + b| - 1] == a + b[..|b| - 1];
    }
  }

  /** Nothing pulls against anything, or nothing reaches an end of the range. */
  predicate NoClash(max: int, s: int, credits: int, penalties: int) {
    credits == 0 || penalties == 0 || max == 0 || (s + credits <= max && s - penalties >= 0)
  }

  lemma {:induction false} ClampedOnce(max: int, s: int, txs: seq<Tx>)
    requires 0 <= s <= max && NoClash(max, s, Credits(txs), Penalties(txs))
    ensures Clamped(max, s, txs) == Max(0, Min(max, s + Credits(txs) - Penalties(txs)))
  {
    if txs != [] {
      ClampedOnce(max, s, txs[..|txs| - 1]);
    }
  }

  function Ups(txs: seq<Tx>): seq<Tx> {
    if txs == [] then [] else Ups(txs[..|txs| - 1]) + if Amount(txs[|txs| - 1]) > 0 then [txs[|txs| - 1]] else []
  }

  function Downs(txs: seq<Tx>): seq<Tx> {
    if txs == [] then [] else Downs(txs[..|txs| - 1]) + if Amount(txs[|txs| - 1]) > 0 then [] else [txs[|txs| - 1]]
  }

  lemma {:induction false} UpsAndDowns(txs: seq<Tx>)
    ensures Permutes(Ups(txs) + Downs(txs), txs) && Permutes(Downs(txs) + Ups(txs), txs)
  {
    if txs != [] {
      var before, last := txs[..|txs| - 1], txs[|txs| - 1];
      assert txs == before + [last];
      UpsAndDowns(before);
      OneSorted(txs);
      hide Ups, Downs;
      OneMoved(Ups(before), Downs(before), before, last);
      OneMoved(Downs(before), Ups(before), before, last);
    }
  }

  lemma OneSorted(txs: seq<Tx>)
    requires txs != []
    ensures var before, last := txs[..|txs| - 1], txs[|txs| - 1];
      && Ups(txs) == (if Amount(last) > 0 then Ups(before) + [last] else Ups(before))
      && Downs(txs) == if Amount(last) > 0 then Downs(before) else Downs(before) + [last]
  {}

  lemma OneMoved(a: seq<Tx>, b: seq<Tx>, before: seq<Tx>, last: Tx)
    requires Permutes(a + b, before)
    ensures Permutes(a + [last] + b, before + [last]) && Permutes(a + (b + [last]), before + [last])
  {
    assert multiset(a + [last] + b) == multiset(a + b) + multiset{last};
    assert a + (b + [last]) == a + b + [last];
  }

  lemma {:induction false} UpSums(txs: seq<Tx>)
    ensures Credits(Ups(txs)) == Credits(txs) && Penalties(Ups(txs)) == 0
    ensures Credits(Downs(txs)) == 0 && Penalties(Downs(txs)) == Penalties(txs)
  {
    if txs != [] {
      var before, last := txs[..|txs| - 1], txs[|txs| - 1];
      assert txs == before + [last];
      UpSums(before);
      OneSorted(txs);
      hide Ups, Downs, Credits, Penalties;
      SumsSnoc(before, last);
      if Amount(last) > 0 {
        SumsSnoc(Ups(before), last);
      } else {
        SumsSnoc(Downs(before), last);
      }
    }
  }

  lemma SumsSnoc(before: seq<Tx>, last: Tx)
    ensures Credits(before + [last]) == Credits(before) + Max(0, Amount(last))
    ensures Penalties(before + [last]) == Penalties(before) + Max(0, -Amount(last))
  {
    assert (before + [last])[..|before|] == before;
  }

  /** Where entries pull against each other at an end of the range, credits first and penalties first
      end at different scores. */
  lemma ClashShows(max: int, s: int, txs: seq<Tx>)
    requires 0 <= s <= max && !NoClash(max, s, Credits(txs), Penalties(txs))
    ensures Clamped(max, s, Ups(txs) + Downs(txs)) < Clamped(max, s, Downs(txs) + Ups(txs))
  {
    hide Clamped, Ups, Downs, Credits, Penalties;
    UpSums(txs);
    UpThenDown(max, s, Ups(txs), Downs(txs));
    UpThenDown(max, s, Downs(txs), Ups(txs));
  }

  /** Two one-sided blocks, one after the other. */
  lemma UpThenDown(max: int, s: int, a: seq<Tx>, b: seq<Tx>)
    requires 0 <= s <= max
    requires Credits(a) == 0 || Penalties(a) == 0
    requires Credits(b) == 0 || Penalties(b) == 0
    ensures Clamped(max, s, a + b) ==
      Max(0, Min(max, Max(0, Min(max, s + Credits(a) - Penalties(a))) + Credits(b) - Penalties(b)))
  {
    hide Clamped, Credits, Penalties;
    ClampedConcat(max, s, a, b);
    ClampedOnce(max, s, a);
    ClampedRange(max, s, a);
    ClampedOnce(max, Clamped(max, s, a), b);
  }

  // ---------------------------------------------------------------- rows and replay of a block

  lemma {:induction false} RowInRange(p: Params, log: seq<Tx>, id: string)
    requires ValidParams(p)
    ensures 0 <= RowOf(p, log, id).score <= p.maxTotal
  {
    if log != [] {
      RowInRange(p, log[..|log| - 1], id);
    }
  }

  lemma {:induction false} RowOfBlock(p: Params, log: seq<Tx>, txs: seq<Tx>, id: string)
    requires ValidParams(p) && ScoreOnly(txs, id)
    ensures RowOf(p, log + txs, id) == Row(Clamped(p.maxTotal, RowOf(p, log, id).score, txs), RowOf(p, log, id).offenses)
  {
    if txs == [] {
      assert log + txs == log;
    } else {
      var before, last := txs[..|txs| - 1], txs[|txs| - 1];
      assert last in txs && ScoreOnly(before, id);
      RowOfBlock(p, log, before, id);
      RowInRange(p, log + before, id);
      assert (log + txs)[..|log + txs| - 1] == log + before;
      assert RowOf(p, log + txs, id) ==
        var row := RowOf(p, log + before, id);
        var next := Apply(p, last, RowState(log + before, last, row.score, row.offenses)); Row(next.score, next.offenses);
      hide RowOf;
      ScoreStep(p, last, RowState(log + before, last, RowOf(p, log + before, id).score, RowOf(p, log + before, id).offenses));
    }
  }

  lemma ScoreStep(p: Params, tx: Tx, s: State)
    requires tx.kind.ScoreUpdate? && !s.frozen && 0 <= s.score <= p.maxTotal
    ensures Apply(p, tx, s) == State(Max(0, Min(p.maxTotal, s.score + Amount(tx))), s.offenses, false, s.links)
  {}

  lemma {:induction false} RunOfBlock(p: Params, txs: seq<Tx>, s: State, id: string)
    requires ScoreOnly(txs, id) && !s.frozen && 0 <= s.score <= p.maxTotal
    ensures Run(p, txs, s) == State(Clamped(p.maxTotal, s.score, txs), s.offenses, false, s.links)
  {
    if txs != [] {
      var before, last := txs[..|txs| - 1], txs[|txs| - 1];
      assert last in txs && ScoreOnly(before, id);
      RunOfBlock(p, before, s, id);
      ClampedRange(p.maxTotal, s.score, before);
      ScoreStep(p, last, Run(p, before, s));
    }
  }

  lemma {:induction false} InsertPermutes(tx: Tx, txs: seq<Tx>)
    ensures multiset(InsertByTime(tx, txs)) == multiset{tx} + multiset(txs)
  {
    if txs != [] {
      assert txs == [txs[0]] + txs[1..];
      InsertPermutes(tx, txs[1..]);
    }
  }

  lemma {:induction false} SortPermutes(txs: seq<Tx>)
    ensures Permutes(SortByTime(txs), txs)
  {
    if txs != [] {
      assert txs == [txs[0]] + txs[1..];
      SortPermutes(txs[1..]);
      InsertPermutes(txs[0], SortByTime(txs[1..]));
    }
  }

  lemma {:induction false} AtTimeConcat(a: seq<Tx>, b: seq<Tx>, t: int)
    ensures AtTime(a + b, t) == AtTime(a, t) + AtTime(b, t)
  {
    if a == [] {
      assert a + b == b;
    } else {
      assert (a + b)[1..] == a[1..] + b;
      AtTimeConcat(a[1..], b, t);
    }
  }

  /** A later block is sorted behind what came before it. */
  lemma SortConcat(log: seq<Tx>, txs: seq<Tx>)
    requires Later(log, txs)
    ensures SortByTime(log + txs) == SortByTime(log) + SortByTime(txs)
  {
    var a, b := SortByTime(log), SortByTime(txs);
    var ab: seq<Tx> := a + b;
    SortByTimeSorts(log);
    SortByTimeSorts(txs);
    SortByTimeSorts(log + txs);
    SortPermutes(log);
    SortPermutes(txs);
    forall i, j | 0 <= i < j < |ab| ensures ab[i].timestamp <= ab[j].timestamp {
      if i < |a| <= j {
        InPermuted(a, log, a[i]);
        InPermuted(b, txs, b[j - |a|]);
      }
    }
    forall t: int ensures AtTime(ab, t) == AtTime(SortByTime(log + txs), t) {
      AtTimeConcat(a, b, t);
      AtTimeConcat(log, txs, t);
    }
    hide SortByTime;
    OrderedUnique(SortByTime(log + txs), ab);
  }

  lemma InPermuted(q: seq<Tx>, txs: seq<Tx>, x: Tx)
    requires Permutes(q, txs) && x in q
    ensures x in txs
  {
    assert x in multiset(q);
    assert x in multiset(txs);
  }

  lemma {:induction false} AllTarget(txs: seq<Tx>, id: string)
    requires ScoreOnly(txs, id)
    ensures Targeting(txs, id) == txs
  {
    if txs != [] {
      assert txs[|txs| - 1] in txs && ScoreOnly(txs[..|txs| - 1], id);
      AllTarget(txs[..|txs| - 1], id);
    }
  }

  lemma ScoreOnlyPermuted(q: seq<Tx>, txs: seq<Tx>, id: string)
    requires ScoreOnly(txs, id) && Permutes(q, txs)
    ensures ScoreOnly(q, id)
  {
    forall x | x in q ensures x.kind.ScoreUpdate? && x.tipId == Some(id) {
      InPermuted(q, txs, x);
    }
  }

  /** The replay of a later block goes on from the replay of what came before. */
  lemma ReplayOfBlock(p: Params, log: seq<Tx>, txs: seq<Tx>, id: string)
    requires ScoreOnly(txs, id) && Later(log, txs)
    requires !Replay(p, log, id).frozen && 0 <= Replay(p, log, id).score <= p.maxTotal
    ensures Permutes(SortByTime(txs), txs)
    ensures var s := Replay(p, log, id);
      Replay(p, log + txs, id) == State(Clamped(p.maxTotal, s.score, SortByTime(txs)), s.offenses, false, s.links)
  {
    SortPermutes(txs);
    ScoreOnlyPermuted(SortByTime(txs), txs, id);
    hide ScoreOnly, Later, SortByTime, Run, Replay, Targeting, Permutes;
    ReplayIsSortedFold(p, log + txs, id);
    ReplayIsSortedFold(p, log, id);
    SortConcat(log, txs);
    TargetingConcat(SortByTime(log), SortByTime(txs), id);
    AllTarget(SortByTime(txs), id);
    RunAppend(p, Targeting(SortByTime(log), id), SortByTime(txs), InitialState(p));
    RunOfBlock(p, SortByTime(txs), Replay(p, log, id), id);
  }

  // ---------------------------------------------------------------- when order is harmless

  /** However the block is ordered when it is committed, the row and the replay come out the same. */
  ghost predicate OrderHarmless(p: Params, log: seq<Tx>, txs: seq<Tx>, id: string) {
    forall q | Permutes(q, txs) :: RowOf(p, log + q, id) == RowOf(p, log + txs, id) && Agrees(p, log + q, id)
  }

  /** Exactly when: for an identity that is not frozen and at which row and replay agree, a later block of
      score entries can be committed in any order if and only if it has no credits, or no penalties, or
      neither end of the range is reached. */
  lemma OrderHarmlessIff(p: Params, log: seq<Tx>, txs: seq<Tx>, id: string)
    requires ValidParams(p) && ScoreOnly(txs, id) && Later(log, txs)
    requires Agrees(p, log, id) && !Replay(p, log, id).frozen
    ensures OrderHarmless(p, log, txs, id) <==> NoClash(p.maxTotal, RowOf(p, log, id).score, Credits(txs), Penalties(txs))
  {
    var s := RowOf(p, log, id).score;
    RowInRange(p, log, id);
    hide RowOf, Agrees, Replay, ScoreOnly, Later, ValidParams;
    if NoClash(p.maxTotal, s, Credits(txs), Penalties(txs)) {
      forall q | Permutes(q, txs) ensures RowOf(p, log + q, id) == RowOf(p, log + txs, id) && Agrees(p, log + q, id) {
        BlockOrdered(p, log, txs, q, id);
        BlockOrdered(p, log, txs, txs, id);
        SumsDecide(p.maxTotal, s, q, txs);
        SumsDecide(p.maxTotal, s, SortByTime(q), txs);
      }
    } else {
      UpsAndDowns(txs);
      BlockOrdered(p, log, txs, Ups(txs) + Downs(txs), id);
      BlockOrdered(p, log, txs, Downs(txs) + Ups(txs), id);
      ClashShows(p.maxTotal, s, txs);
    }
  }

  lemma SumsDecide(max: int, s: int, q: seq<Tx>, txs: seq<Tx>)
    requires 0 <= s <= max && Permutes(q, txs) && NoClash(max, s, Credits(txs), Penalties(txs))
    ensures Clamped(max, s, q) == Clamped(max, s, txs)
  {
    SameSums(q, txs);
    ClampedOnce(max, s, q);
    ClampedOnce(max, s, txs);
  }

  lemma BlockOrdered(p: Params, log: seq<Tx>, txs: seq<Tx>, q: seq<Tx>, id: string)
    requires ValidParams(p) && ScoreOnly(txs, id) && Later(log, txs) && Permutes(q, txs)
    requires Agrees(p, log, id) && !Replay(p, log, id).frozen
    ensures var s := RowOf(p, log, id).score;
      && RowOf(p, log + q, id) == Row(Clamped(p.maxTotal, s, q), RowOf(p, log, id).offenses)
      && Permutes(SortByTime(q), txs)
      && (Agrees(p, log + q, id) <==> Clamped(p.maxTotal, s, q) == Clamped(p.maxTotal, s, SortByTime(q)))
  {
    ScoreOnlyPermuted(q, txs, id);
    assert Later(log, q) by {
      forall x, y | x in log && y in q ensures x.timestamp <= y.timestamp {
        InPermuted(q, txs, y);
      }
    }
    RowInRange(p, log, id);
    hide RowOf, Replay, ScoreOnly, Later, SortByTime;
    RowOfBlock(p, log, q, id);
    ReplayOfBlock(p, log, q, id);
  }

  /** Without any revocation: a credit that fills the range and a penalty of one, committed against the
      order of their timestamps, leave the row below the replay or above it. */
  lemma LateStampsPart(p: Params, id: string) returns (below: seq<Tx>, above: seq<Tx>)
    requires ValidParams(p) && p.maxTotal >= 1
    ensures LinksOwn(below) && LinksOwn(above)
    ensures (forall tx | tx in below :: tx.kind.ScoreUpdate?) && forall tx | tx in above :: tx.kind.ScoreUpdate?
    ensures RowOf(p, below, id).score == p.maxTotal - 1 && Replay(p, below, id).score == p.maxTotal
    ensures RowOf(p, above, id).score == p.maxTotal && Replay(p, above, id).score == p.maxTotal - 1
  {
    var credit2, penalty2 := Moves(id, 2, p.maxTotal), Moves(id, 2, -1);
    var credit1, penalty1 := Moves(id, 1, p.maxTotal), Moves(id, 1, -1);
    below, above := [credit2, penalty1], [penalty2, credit1];
    assert LinksOwn(below) && LinksOwn(above);
    hide LinksOwn;
    TwoRows(p, credit2, penalty1, id);
    TwoReplayed(p, credit2, penalty1, id);
    TwoRows(p, penalty2, credit1, id);
    TwoReplayed(p, penalty2, credit1, id);
    hide RowOf, Replay, Clamped;
    EndsAt(p, credit2, penalty1);
    EndsAt(p, credit1, penalty2);
  }

  function Moves(id: string, at: int, delta: int): Tx {
    Tx(ScoreUpdate, at, Some(id), None, None, None, Some(delta), None, None, false)
  }

  lemma TwoRows(p: Params, x: Tx, y: Tx, id: string)
    requires ValidParams(p) && ScoreOnly([x, y], id)
    ensures RowOf(p, [x, y], id).score == Clamped(p.maxTotal, p.initial, [x, y])
  {
    assert [] + [x, y] == [x, y];
    hide Clamped;
    RowOfBlock(p, [], [x, y], id);
  }

  lemma TwoReplayed(p: Params, x: Tx, y: Tx, id: string)
    requires ValidParams(p) && ScoreOnly([x, y], id) && y.timestamp < x.timestamp
    ensures Replay(p, [x, y], id).score == Clamped(p.maxTotal, p.initial, [y, x])
  {
    var none: seq<Tx> := [];
    assert none + [x, y] == [x, y];
    assert Later(none, [x, y]);
    NothingReplayed(p, id);
    hide Clamped, Replay, ScoreOnly, SortByTime, Later, Permutes;
    SortTwo(x, y);
    ReplayOfBlock(p, none, [x, y], id);
  }

  /** Filling the range and then losing one, or the other way round. */
  lemma EndsAt(p: Params, credit: Tx, penalty: Tx)
    requires ValidParams(p) && p.maxTotal >= 1 && Amount(credit) == p.maxTotal && Amount(penalty) == -1
    ensures Clamped(p.maxTotal, p.initial, [credit, penalty]) == p.maxTotal - 1
    ensures Clamped(p.maxTotal, p.initial, [penalty, credit]) == p.maxTotal
  {
    hide Amount;
    assert [credit, penalty][..1] == [credit] && [penalty, credit][..1] == [penalty];
    assert [credit][..0] == [] && [penalty][..0] == [];
    assert Clamped(p.maxTotal, p.initial, [credit]) == p.maxTotal;
    assert Clamped(p.maxTotal, p.initial, [penalty]) == Max(0, p.initial - 1);
  }
}
