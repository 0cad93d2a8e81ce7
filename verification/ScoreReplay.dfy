/** Two ways to a score: the replay of node/src/scoring.js and the rows the commit handler keeps. */
module ScoreReplay {
  import opened Common
  import opened Score

  // ---------------------------------------------------------------- the stable sort by timestamp

  predicate Ordered(txs: seq<Tx>) {
    forall i, j | 0 <= i < j < |txs| :: txs[i].timestamp <= txs[j].timestamp
  }

  function InsertByTime(tx: Tx, txs: seq<Tx>): seq<Tx> {
    if txs == [] then [tx]
    else if txs[0].timestamp < tx.timestamp then [txs[0]] + InsertByTime(tx, txs[1..])
    else [tx] + txs
  }

  /** Array.prototype.sort by timestamp: stable, so equal timestamps keep their order. */
  function SortByTime(txs: seq<Tx>): seq<Tx> {
    if txs == [] then [] else InsertByTime(txs[0], SortByTime(txs[1..]))
  }

  /** The transactions of one instant, in list order. */
  function AtTime(txs: seq<Tx>, t: int): seq<Tx> {
    if txs == [] then []
    else if txs[0].timestamp == t then [txs[0]] + AtTime(txs[1..], t)
    else AtTime(txs[1..], t)
  }

  lemma {:induction false} InsertByTimeSorts(tx: Tx, txs: seq<Tx>)
    requires Ordered(txs)
    ensures Ordered(InsertByTime(tx, txs))
    ensures forall x :: x in InsertByTime(tx, txs) ==> x == tx || x in txs
    ensures forall t :: AtTime(InsertByTime(tx, txs), t) == if t == tx.timestamp then [tx] + AtTime(txs, t) else AtTime(txs, t)
  {
    if txs != [] && txs[0].timestamp < tx.timestamp {
      var rest := InsertByTime(tx, txs[1..]);
      InsertByTimeSorts(tx, txs[1..]);
      assert forall x | x in rest :: txs[0].timestamp <= x.timestamp;
      assert ([txs[0]] + rest)[1..] == rest;
    } else {
      assert ([tx] + txs)[1..] == txs;
    }
  }

  lemma {:induction false} SortByTimeSorts(txs: seq<Tx>)
    ensures Ordered(SortByTime(txs))
    ensures forall t :: AtTime(SortByTime(txs), t) == AtTime(txs, t)
  {
    if txs != [] {
      SortByTimeSorts(txs[1..]);
      InsertByTimeSorts(txs[0], SortByTime(txs[1..]));
    }
  }

  lemma {:induction false} AtTimeSome(txs: seq<Tx>, tx: Tx)
    ensures tx in AtTime(txs, tx.timestamp) <==> tx in txs
    ensures forall x, t | x in AtTime(txs, t) :: x in txs && x.timestamp == t
  {
    if txs != [] {
      AtTimeSome(txs[1..], tx);
      assert txs == [txs[0]] + txs[1..];
    }
  }

  lemma EarliestFirst(xs: seq<Tx>, ys: seq<Tx>)
    requires Ordered(xs) && Ordered(ys) && xs != [] && ys != []
    requires forall t :: AtTime(xs, t) == AtTime(ys, t)
    ensures xs[0] == ys[0]
  {
    AtTimeSome(xs, xs[0]);
    AtTimeSome(ys, xs[0]);
    AtTimeSome(xs, ys[0]);
    AtTimeSome(ys, ys[0]);
    assert AtTime(xs, xs[0].timestamp)[0] == xs[0];
    assert AtTime(ys, ys[0].timestamp)[0] == ys[0];
  }

  /** A time-ordered list is determined by what it holds at each instant. */
  lemma {:induction false} OrderedUnique(xs: seq<Tx>, ys: seq<Tx>)
    requires Ordered(xs) && Ordered(ys) && forall t :: AtTime(xs, t) == AtTime(ys, t)
    ensures xs == ys
  {
    assert xs != [] ==> AtTime(xs, xs[0].timestamp) == AtTime(ys, xs[0].timestamp);
    assert ys != [] ==> AtTime(xs, ys[0].timestamp) == AtTime(ys, ys[0].timestamp);
    if xs != [] && ys != [] {
      EarliestFirst(xs, ys);
      forall t ensures AtTime(xs[1..], t) == AtTime(ys[1..], t) {
        assert AtTime(xs, t) == AtTime(ys, t);
        if t == xs[0].timestamp {
          assert AtTime(xs[1..], t) == AtTime(xs, t)[1..];
          assert AtTime(ys[1..], t) == AtTime(ys, t)[1..];
        }
      }
      OrderedUnique(xs[1..], ys[1..]);
      assert xs == [xs[0]] + xs[1..] && ys == [ys[0]] + ys[1..];
    }
  }

  // ---------------------------------------------------------------- computeScore

  /** getTxsByTipId: every transaction that names the identity in one of three roles. The in-memory store
      looks at the signer too, which no scoring rule does. */
  function Mentioning(log: seq<Tx>, id: string): seq<Tx> {
    if log == [] then [] else
    Mentioning(log[..|log| - 1], id) +
    if Mentions(log[|log| - 1], id) then [log[|log| - 1]] else []
  }

  predicate Mentions(tx: Tx, id: string) {
    tx.tipId == Some(id) || tx.signerTipId == Some(id) || tx.authorTipId == Some(id)
  }

  function Targeting(txs: seq<Tx>, id: string): seq<Tx> {
    if txs == [] then [] else
    Targeting(txs[..|txs| - 1], id) + if Target(txs[|txs| - 1]) == Some(id) then [txs[|txs| - 1]] else []
  }

  /** The prefilter never drops a transaction whose score effect lands on the identity. */
  lemma {:induction false} PrefilterComplete(log: seq<Tx>, id: string)
    ensures Targeting(Mentioning(log, id), id) == Targeting(log, id)
  {
    if log != [] {
      var before, last := log[..|log| - 1], log[|log| - 1];
      PrefilterComplete(before, id);
      var m := Mentioning(before, id);
      assert Target(last) == Some(id) ==> Mentions(last, id);
      assert (m + [last])[..|m + [last]| - 1] == m;
      assert m + [] == m;
    }
  }

  /** The score of an identity as a function of the log: its own transactions, folded in log order. */
  function ScoreOf(p: Params, log: seq<Tx>, id: string): State {
    Run(p, Targeting(log, id), InitialState(p))
  }

  datatype HistoryEntry = HistoryEntry(kind: Kind, delta: int, scoreAfter: int, timestamp: int)

  /** What the history of a list of transactions must be: one entry per transaction that targets the
      identity, each with the delta that took effect and the score after it. */
  function History(p: Params, txs: seq<Tx>, id: string): seq<HistoryEntry> {
    if txs == [] then [] else
    var before, last := txs[..|txs| - 1], txs[|txs| - 1];
    History(p, before, id) +
    if Target(last) != Some(id) then [] else
      [HistoryEntry(last.kind, Delta(p, last, ScoreOf(p, before, id)), ScoreOf(p, txs, id).score, last.timestamp)]
  }

  lemma ScoreOfStep(p: Params, txs: seq<Tx>, id: string)
    requires txs != []
    ensures var before, last := txs[..|txs| - 1], txs[|txs| - 1];
      ScoreOf(p, txs, id) == if Target(last) == Some(id) then Apply(p, last, ScoreOf(p, before, id)) else ScoreOf(p, before, id)
  {
    var before, last := txs[..|txs| - 1], txs[|txs| - 1];
    var t := Targeting(before, id);
    assert (t + [last])[..|t + [last]| - 1] == t && t + [] == t;
  }

  method ComputeScore(p: Params, log: seq<Tx>, id: string) returns (state: State, history: seq<HistoryEntry>)
    ensures state == ScoreOf(p, SortByTime(Mentioning(log, id)), id)
    ensures history == History(p, SortByTime(Mentioning(log, id)), id)
  {
    var txs := SortByTime(Mentioning(log, id));
    state := InitialState(p);
    history := [];
    for i := 0 to |txs|
      invariant state == ScoreOf(p, txs[..i], id)
      invariant history == History(p, txs[..i], id)
    {
      ScoreOfStep(p, txs[..i + 1], id);
      assert txs[..i + 1][..i] == txs[..i];
      if Target(txs[i]) != Some(id) {
        continue;
      }
      var next := Apply(p, txs[i], state);
      history := history + [HistoryEntry(txs[i].kind, Delta(p, txs[i], state), next.score, txs[i].timestamp)];
      state := next;
    }
    assert txs[..|txs|] == txs;
  }

  /** The last entry of a history is the score itself. */
  lemma {:induction false} HistoryEndsAtScore(p: Params, txs: seq<Tx>, id: string)
    ensures var history := History(p, txs, id);
      ScoreOf(p, txs, id).score == if history == [] then p.initial else history[|history| - 1].scoreAfter
  {
    if txs != [] {
      HistoryEndsAtScore(p, txs[..|txs| - 1], id);
      ScoreOfStep(p, txs, id);
    }
  }

  lemma {:induction false} MentioningOrdered(log: seq<Tx>, id: string)
    requires Ordered(log)
    ensures Ordered(Mentioning(log, id)) && forall x | x in Mentioning(log, id) :: x in log
  {
    if log != [] {
      var before, last := log[..|log| - 1], log[|log| - 1];
      MentioningOrdered(before, id);
      forall x | x in Mentioning(before, id) ensures x.timestamp <= last.timestamp {
        var i :| 0 <= i < |before| && before[i] == x;
        assert log[i] == x;
      }
    }
  }

  /** On a log kept in timestamp order, filter, sort and fold is the fold over the log itself. */
  lemma ReplayIsScoreOf(p: Params, log: seq<Tx>, id: string)
    requires Ordered(log)
    ensures ScoreOf(p, SortByTime(Mentioning(log, id)), id) == ScoreOf(p, log, id)
  {
    MentioningOrdered(log, id);
    SortByTimeSorts(Mentioning(log, id));
    OrderedUnique(SortByTime(Mentioning(log, id)), Mentioning(log, id));
    PrefilterComplete(log, id);
  }

  /** computeScore, as a function of everything committed: filter, stable sort, fold. */
  function Replay(p: Params, log: seq<Tx>, id: string): State {
    ScoreOf(p, SortByTime(Mentioning(log, id)), id)
  }

  lemma {:induction false} TargetingConcat(a: seq<Tx>, b: seq<Tx>, id: string)
    ensures Targeting(a + b, id) == Targeting(a, id) + Targeting(b, id)
  {
    if b == [] {
      assert a + b == a;
    } else {
      TargetingConcat(a, b[..|b| - 1], id);
      assert (a + b)[..|a + b| - 1] == a + b[..|b| - 1];
    }
  }

  lemma {:induction false} TargetingCons(tx: Tx, txs: seq<Tx>, id: string)
    ensures Targeting([tx] + txs, id) == if Target(tx) == Some(id) then [tx] + Targeting(txs, id) else Targeting(txs, id)
  {
    TargetingConcat([tx], txs, id);
    assert [tx][..0] == [];
  }

  lemma {:induction false} TargetingInsert(tx: Tx, txs: seq<Tx>, id: string)
    requires Ordered(txs)
    ensures Targeting(InsertByTime(tx, txs), id) ==
      if Target(tx) == Some(id) then InsertByTime(tx, Targeting(txs, id)) else Targeting(txs, id)
  {
    hide Target, Targeting;
    if txs == [] {
      TargetingCons(tx, [], id);
      assert [tx] + [] == [tx];
      NoneTargeted(id);
    } else if txs[0].timestamp < tx.timestamp {
      var head, tail := txs[0], txs[1..];
      assert txs == [head] + tail;
      TargetingCons(head, tail, id);
      TargetingCons(head, InsertByTime(tx, tail), id);
      TargetingInsert(tx, tail, id);
      assert ([head] + Targeting(tail, id))[1..] == Targeting(tail, id);
    } else {
      TargetingCons(tx, txs, id);
      TargetedLater(txs, id);
    }
  }

  lemma NoneTargeted(id: string)
    ensures Targeting([], id) == []
  {}

  lemma TargetedLater(txs: seq<Tx>, id: string)
    requires Ordered(txs) && txs != []
    ensures Targeting(txs, id) != [] ==> txs[0].timestamp <= Targeting(txs, id)[0].timestamp
  {
    TargetedIn(txs, id);
    if Targeting(txs, id) != [] {
      assert Targeting(txs, id)[0] in txs;
    }
  }

  lemma {:induction false} TargetedIn(txs: seq<Tx>, id: string)
    ensures forall x | x in Targeting(txs, id) :: x in txs && Target(x) == Some(id)
  {
    if txs != [] {
      TargetedIn(txs[..|txs| - 1], id);
    }
  }

  /** Sorting and picking out an identity's transactions can be done in either order. */
  lemma {:induction false} TargetingSorts(txs: seq<Tx>, id: string)
    ensures Targeting(SortByTime(txs), id) == SortByTime(Targeting(txs, id))
  {
    if txs != [] {
      var head, tail := txs[0], txs[1..];
      assert txs == [head] + tail;
      TargetingSorts(tail, id);
      SortByTimeSorts(tail);
      TargetingInsert(head, SortByTime(tail), id);
      TargetingCons(head, tail, id);
      hide Targeting, InsertByTime;
      assert ([head] + Targeting(tail, id))[1..] == Targeting(tail, id);
    }
  }

  /** The replay is the fold of the identity's own transactions in timestamp order. */
  lemma ReplayIsSortedFold(p: Params, log: seq<Tx>, id: string)
    ensures Replay(p, log, id) == Run(p, SortByTime(Targeting(log, id)), InitialState(p))
    ensures Replay(p, log, id) == ScoreOf(p, SortByTime(log), id)
  {
    TargetingSorts(Mentioning(log, id), id);
    TargetingSorts(log, id);
    PrefilterComplete(log, id);
  }

  /** The core invariant of the scoring engine: two stores that hand out the same transactions in any
      two orders compute the same score, as long as they agree on the order within one instant. */
  lemma ReplayForgetsOrder(p: Params, mine: seq<Tx>, yours: seq<Tx>, id: string)
    requires forall t :: AtTime(mine, t) == AtTime(yours, t)
    ensures SortByTime(mine) == SortByTime(yours)
    ensures ScoreOf(p, SortByTime(mine), id) == ScoreOf(p, SortByTime(yours), id)
  {
    SortByTimeSorts(mine);
    SortByTimeSorts(yours);
    OrderedUnique(SortByTime(mine), SortByTime(yours));
  }

  /** The proviso is needed: from any initial score, a bonus that fills the range and a penalty of the
      same instant give different scores in the two orders. */
  lemma TiesCanDiffer(p: Params, id: string, t: int) returns (bonus: Tx, penalty: Tx)
    requires ValidParams(p) && p.maxTotal >= 1
    ensures bonus.timestamp == penalty.timestamp == t
    ensures ScoreOf(p, SortByTime([bonus, penalty]), id).score == p.maxTotal - 1
    ensures ScoreOf(p, SortByTime([penalty, bonus]), id).score == p.maxTotal
  {
    bonus := Tx(ScoreUpdate, t, Some(id), None, None, None, Some(p.maxTotal), None, None, false);
    penalty := Tx(ScoreUpdate, t, Some(id), None, None, None, Some(-1), None, None, false);
    SortTwo(bonus, penalty);
    SortTwo(penalty, bonus);
    ScoreOfTwo(p, bonus, penalty, id);
    ScoreOfTwo(p, penalty, bonus, id);
  }

  lemma SortTwo(x: Tx, y: Tx)
    ensures SortByTime([x, y]) == if y.timestamp < x.timestamp then [y, x] else [x, y]
  {
    assert [x, y][1..] == [y] && [y][1..] == [];
    assert SortByTime([y]) == InsertByTime(y, SortByTime([])) == [y];
    assert InsertByTime(x, [y]) == if y.timestamp < x.timestamp then [y] + InsertByTime(x, []) else [x] + [y];
  }

  lemma ScoreOfTwo(p: Params, x: Tx, y: Tx, id: string)
    requires Target(x) == Some(id) && Target(y) == Some(id)
    ensures ScoreOf(p, [x, y], id) == Apply(p, y, Apply(p, x, InitialState(p)))
  {
    assert [x, y][..1] == [x] && [x][..0] == [];
    ScoreOfStep(p, [x, y], id);
    ScoreOfStep(p, [x], id);
  }

  // ---------------------------------------------------------------- a map of states, kept up incrementally

  ghost predicate Tracks(p: Params, states: map<string, State>, log: seq<Tx>) {
    forall id :: (if id in states then states[id] else InitialState(p)) == ScoreOf(p, log, id)
  }

  /** The incremental caller the header of score-effects.js describes: route each transaction to its
      target and step that identity's state. For every identity it gives what the replay gives. */
  method Incremental(p: Params, log: seq<Tx>) returns (states: map<string, State>)
    ensures Tracks(p, states, log)
    ensures Ordered(log) ==> forall id {:trigger ScoreOf(p, SortByTime(Mentioning(log, id)), id)} ::
      ScoreOf(p, SortByTime(Mentioning(log, id)), id) == if id in states then states[id] else InitialState(p)
  {
    states := map[];
    for i := 0 to |log|
      invariant Tracks(p, states, log[..i])
    {
      var tx := log[i];
      forall id { ScoreOfStep(p, log[..i + 1], id); }
      assert log[..i + 1][..i] == log[..i];
      var target := Target(tx);
      if target.Some? {
        var cur := if target.value in states then states[target.value] else InitialState(p);
        states := states[target.value := Apply(p, tx, cur)];
      }
    }
    assert log[..|log|] == log;
    if Ordered(log) {
      forall id { ReplayIsScoreOf(p, log, id); }
    }
  }
}
