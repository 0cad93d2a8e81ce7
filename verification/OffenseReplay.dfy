/** The offence count as the replay computes it, in timestamp order. */
module OffenseReplay {
  // Consensus may have committed the results in another order. The guard that keeps the count from going
  // negative can then swallow a decrement; this file says exactly when, and that it cannot when appeals are
  // stamped after verdicts.

  import opened Common
  import opened Score
  import opened ScoreReplay
  import opened Settlement
  import opened Appeals
  import opened Offenses

  // ---------------------------------------------------------------- what each result is worth

  /** The change a transaction asks for; the guard may refuse a decrement. */
  function Weight(tx: Tx, id: string): int {
    if Target(tx) != Some(id) then 0
    else if tx.kind.AdjudicationResult? then 1
    else if !tx.kind.AppealResult? then 0
    else if tx.overturned && tx.stage2 == Some(Upheld) then -1
    else if tx.verdict == Some(Upheld) && ((tx.overturned && tx.stage2 == Some(Dismissed)) || tx.stage2 == Some(NoQuorum)) then 1
    else 0
  }

  function Weights(txs: seq<Tx>, id: string): int {
    if txs == [] then 0 else Weights(txs[..|txs| - 1], id) + Weight(txs[|txs| - 1], id)
  }

  /** How often the guard refuses a decrement when the list is folded. */
  function Suppressed(p: Params, txs: seq<Tx>, id: string): nat {
    if txs == [] then 0 else
    var before, last := txs[..|txs| - 1], txs[|txs| - 1];
    Suppressed(p, before, id) + if Weight(last, id) < 0 && ScoreOf(p, before, id).offenses <= 0 then 1 else 0
  }

  lemma {:induction false} CountSplits(p: Params, txs: seq<Tx>, id: string)
    ensures ScoreOf(p, txs, id).offenses == Weights(txs, id) + Suppressed(p, txs, id)
  {
    if txs != [] {
      CountSplits(p, txs[..|txs| - 1], id);
      ScoreOfStep(p, txs, id);
      hide ScoreOf;
    }
  }

  lemma {:induction false} WeightsConcat(a: seq<Tx>, b: seq<Tx>, id: string)
    ensures Weights(a + b, id) == Weights(a, id) + Weights(b, id)
  {
    if b == [] {
      assert a + b == a;
    } else {
      WeightsConcat(a, b[..|b| - 1], id);
      assert (a + b)[..|a + b| - 1] == a + b[..|b| - 1];
    }
  }

  lemma WeightsCons(tx: Tx, txs: seq<Tx>, id: string)
    ensures Weights([tx] + txs, id) == Weight(tx, id) + Weights(txs, id)
  {
    WeightsConcat([tx], txs, id);
    assert [tx][..0] == [];
  }

  lemma {:induction false} WeightsInsert(tx: Tx, txs: seq<Tx>, id: string)
    ensures Weights(InsertByTime(tx, txs), id) == Weight(tx, id) + Weights(txs, id)
  {
    hide Weight, Weights;
    WeightsCons(tx, txs, id);
    if txs == [] {
      assert [tx] + txs == [tx];
    } else {
      assert txs == [txs[0]] + txs[1..];
      WeightsCons(txs[0], txs[1..], id);
      WeightsCons(txs[0], InsertByTime(tx, txs[1..]), id);
      WeightsInsert(tx, txs[1..], id);
    }
  }

  lemma {:induction false} WeightsSort(txs: seq<Tx>, id: string)
    ensures Weights(SortByTime(txs), id) == Weights(txs, id)
  {
    if txs != [] {
      assert txs == [txs[0]] + txs[1..];
      WeightsSort(txs[1..], id);
      WeightsInsert(txs[0], SortByTime(txs[1..]), id);
      WeightsCons(txs[0], txs[1..], id);
    }
  }

  // ---------------------------------------------------------------- commit order never suppresses

  lemma {:induction false} LegalNeverSuppresses(p: Params, log: seq<Event>, author: string)
    requires Legal(log)
    ensures Suppressed(p, Txs(log), author) == 0
  {
    if log != [] {
      var last := log[|log| - 1];
      LegalNeverSuppresses(p, log[..|log| - 1], author);
      TxsLast(log);
      assert last.JuryRuled? ==> Weight(TxOf(last), author) >= 0;
      assert last.Unrelated? ==> Weight(TxOf(last), author) >= 0;
      hide Suppressed, Txs, ScoreOf;
      if Weight(TxOf(last), author) < 0 {
        hide Legal;
        GuardNeverSuppresses(p, log, author);
      }
      SuppressedLast(p, Txs(log), author);
    }
  }

  lemma SuppressedLast(p: Params, txs: seq<Tx>, id: string)
    requires txs != []
    ensures var before, last := txs[..|txs| - 1], txs[|txs| - 1];
      Suppressed(p, txs, id) == Suppressed(p, before, id) +
        if Weight(last, id) < 0 && ScoreOf(p, before, id).offenses <= 0 then 1 else 0
  {}

  /** The replay counts the upheld items and every suppressed decrement besides. */
  lemma ReplayCount(p: Params, log: seq<Event>, author: string)
    requires Legal(log)
    ensures Replay(p, Txs(log), author).offenses ==
      |UpheldItems(log, author)| + Suppressed(p, SortByTime(Txs(log)), author)
  {
    hide Weights, Suppressed, Replay, ScoreOf, SortByTime, UpheldItems, Legal, Txs;
    OffensesAreUpheldItems(p, log, author);
    LegalNeverSuppresses(p, log, author);
    CountSplits(p, Txs(log), author);
    CountSplits(p, SortByTime(Txs(log)), author);
    WeightsSort(Txs(log), author);
    ReplayIsSortedFold(p, Txs(log), author);
  }

  /** So the replayed offence count is the number of items on which a dispute stands upheld exactly if
      the guard refuses no decrement in timestamp order. */
  lemma ReplayCountIff(p: Params, log: seq<Event>, author: string)
    requires Legal(log)
    ensures Replay(p, Txs(log), author).offenses == |UpheldItems(log, author)|
      <==> Suppressed(p, SortByTime(Txs(log)), author) == 0
  {
    ReplayCount(p, log, author);
    hide Replay, SortByTime, UpheldItems, Suppressed, Txs;
  }

  // ---------------------------------------------------------------- sorting a log of events

  function Stamp(ev: Event): int {
    TxOf(ev).timestamp
  }

  function InsertEvent(ev: Event, log: seq<Event>): seq<Event> {
    if log == [] then [ev]
    else if Stamp(log[0]) < Stamp(ev) then [log[0]] + InsertEvent(ev, log[1..])
    else [ev] + log
  }

  function SortEvents(log: seq<Event>): seq<Event> {
    if log == [] then [] else InsertEvent(log[0], SortEvents(log[1..]))
  }

  lemma {:induction false} TxsCons(ev: Event, log: seq<Event>)
    ensures Txs([ev] + log) == [TxOf(ev)] + Txs(log)
  {
    if log == [] {
      assert [ev] + log == [ev] && [ev][..0] == [];
    } else {
      TxsCons(ev, log[..|log| - 1]);
      assert ([ev] + log)[..|[ev] + log| - 1] == [ev] + log[..|log| - 1];
    }
  }

  lemma {:induction false} TxsInsert(ev: Event, log: seq<Event>)
    ensures Txs(InsertEvent(ev, log)) == InsertByTime(TxOf(ev), Txs(log))
  {
    hide Txs, TxOf;
    if log == [] {
      assert [ev] + [] == [ev];
      TxsCons(ev, []);
      NoTxs();
    } else {
      assert log == [log[0]] + log[1..];
      TxsCons(log[0], log[1..]);
      assert Txs(log)[1..] == Txs(log[1..]);
      TxsCons(ev, log);
      TxsCons(log[0], InsertEvent(ev, log[1..]));
      TxsInsert(ev, log[1..]);
    }
  }

  lemma NoTxs()
    ensures Txs([]) == []
  {}

  lemma {:induction false} TxsSort(log: seq<Event>)
    ensures Txs(SortEvents(log)) == SortByTime(Txs(log))
  {
    if log != [] {
      TxsSort(log[1..]);
      TxsInsert(log[0], SortEvents(log[1..]));
      assert log == [log[0]] + log[1..];
      TxsCons(log[0], log[1..]);
      hide Txs, TxOf;
      assert Txs(log)[1..] == Txs(log[1..]);
    }
  }

  ghost predicate Before(log: seq<Event>, x: Event, y: Event) {
    exists i, j | 0 <= i < j < |log| :: log[i] == x && log[j] == y
  }

  ghost predicate InOrder(log: seq<Event>) {
    forall i, j | 0 <= i < j < |log| :: Stamp(log[i]) <= Stamp(log[j])
  }

  lemma BeforeCons(h: Event, t: seq<Event>, x: Event, y: Event)
    ensures Before([h] + t, x, y) <==> (x == h && y in t) || Before(t, x, y)
  {
    var log := [h] + t;
    if i, j :| 0 <= i < j < |log| && log[i] == x && log[j] == y {
      assert t[j - 1] == y;
      if i > 0 {
        assert t[i - 1] == x;
      }
    }
    if x == h && y in t {
      var j :| 0 <= j < |t| && t[j] == y;
      assert log[0] == x && log[j + 1] == y;
    }
    if i, j :| 0 <= i < j < |t| && t[i] == x && t[j] == y {
      assert log[i + 1] == x && log[j + 1] == y;
    }
  }

  lemma {:induction false} InsertedEvents(ev: Event, log: seq<Event>)
    requires InOrder(log)
    ensures InOrder(InsertEvent(ev, log))
    ensures forall x :: x in InsertEvent(ev, log) <==> x == ev || x in log
  {
    if log != [] && Stamp(log[0]) < Stamp(ev) {
      InsertedEvents(ev, log[1..]);
      var rest := InsertEvent(ev, log[1..]);
      assert forall x | x in rest :: Stamp(log[0]) <= Stamp(x);
      assert log == [log[0]] + log[1..];
    }
  }

  /** Insertion keeps the order of what was there, and puts the new event before all that is no earlier. */
  lemma {:induction false} InsertKeeps(ev: Event, log: seq<Event>, x: Event, y: Event)
    requires InOrder(log)
    requires Before(log, x, y) || (x == ev && y in log && Stamp(ev) <= Stamp(y))
    ensures Before(InsertEvent(ev, log), x, y)
  {
    if log != [] {
      var h, t := log[0], log[1..];
      assert log == [h] + t;
      BeforeCons(h, t, x, y);
      if Stamp(h) < Stamp(ev) {
        InsertedEvents(ev, t);
        if Before(t, x, y) || (x == ev && y in t && Stamp(ev) <= Stamp(y)) {
          InsertKeeps(ev, t, x, y);
        }
        BeforeCons(h, InsertEvent(ev, t), x, y);
      } else {
        BeforeCons(ev, log, x, y);
      }
    }
  }

  lemma {:induction false} SortedEvents(log: seq<Event>)
    ensures InOrder(SortEvents(log)) && forall x :: x in SortEvents(log) <==> x in log
  {
    if log != [] {
      SortedEvents(log[1..]);
      InsertedEvents(log[0], SortEvents(log[1..]));
      assert log == [log[0]] + log[1..];
    }
  }

  /** The sort is stable. */
  lemma {:induction false} SortKeeps(log: seq<Event>, x: Event, y: Event)
    requires Before(log, x, y) && Stamp(x) <= Stamp(y)
    ensures Before(SortEvents(log), x, y)
  {
    var h, t := log[0], log[1..];
    assert log == [h] + t;
    BeforeCons(h, t, x, y);
    SortedEvents(t);
    if Before(t, x, y) {
      SortKeeps(t, x, y);
    }
    InsertKeeps(h, SortEvents(t), x, y);
  }

  // ---------------------------------------------------------------- sorted logs stay legal

  predicate SameSlot(x: Event, y: Event) {
    (x.JuryRuled? && y.JuryRuled? && x.item == y.item) || (x.ExpertsRuled? && y.ExpertsRuled? && x.item == y.item)
  }

  ghost predicate Once(log: seq<Event>) {
    forall i, j | 0 <= i < j < |log| :: !SameSlot(log[i], log[j])
  }

  ghost predicate Supports(x: Event, y: Event) {
    x.JuryRuled? && y.ExpertsRuled? && x.item == y.item && Succeeds(x.jury, y.appeal)
  }

  ghost predicate Founded(log: seq<Event>) {
    forall j | 0 <= j < |log| && log[j].ExpertsRuled? :: exists i | 0 <= i < j :: Supports(log[i], log[j])
  }

  ghost predicate Apolitical(log: seq<Event>) {
    forall ev | ev in log && ev.Unrelated? :: !ev.tx.kind.AdjudicationResult? && !ev.tx.kind.AppealResult?
  }

  ghost predicate JuryAt(log: seq<Event>, item: string, r: Result2) {
    exists i | 0 <= i < |log| :: log[i].JuryRuled? && log[i].item == item && log[i].jury == r
  }

  lemma {:induction false} JuryOnIs(log: seq<Event>, item: string)
    ensures JuryOn(log, item).Some? ==> JuryAt(log, item, JuryOn(log, item).value)
    ensures JuryOn(log, item).None? ==> forall ev | ev in log :: !(ev.JuryRuled? && ev.item == item)
  {
    if log != [] {
      var before, last := log[..|log| - 1], log[|log| - 1];
      JuryOnIs(before, item);
      assert log == before + [last];
      if JuryOn(before, item).Some? {
        JuryStays(before, last, item, JuryOn(before, item).value);
      }
      if last.JuryRuled? && last.item == item {
        assert log[|log| - 1].jury == last.jury;
      }
      hide JuryAt;
    }
  }

  lemma JuryStays(before: seq<Event>, last: Event, item: string, r: Result2)
    requires JuryAt(before, item, r)
    ensures JuryAt(before + [last], item, r)
  {
    var i :| 0 <= i < |before| && before[i].JuryRuled? && before[i].item == item && before[i].jury == r;
    assert (before + [last])[i] == before[i];
  }

  lemma {:induction false} ExpertsOnIs(log: seq<Event>, item: string)
    ensures ExpertsOn(log, item).Some? <==> exists ev :: ev in log && ev.ExpertsRuled? && ev.item == item
  {
    if log != [] {
      var before, last := log[..|log| - 1], log[|log| - 1];
      ExpertsOnIs(before, item);
      assert log == before + [last];
    }
  }

  /** Legality without reference to prefixes. */
  lemma {:induction false} LegalMeans(log: seq<Event>)
    ensures Legal(log) <==> Once(log) && Founded(log) && Apolitical(log)
  {
    if log != [] {
      var before, last := log[..|log| - 1], log[|log| - 1];
      assert log == before + [last];
      LegalMeans(before);
      PartsShrink(before, last);
      hide Once, Founded, Apolitical, MayFollow, Fits;
      if Once(before) && Founded(before) {
        LegalLast(before, last);
      }
    }
  }

  /** What the last event must satisfy beside its prefix. */
  ghost predicate Fits(before: seq<Event>, last: Event) {
    && (forall ev | ev in before :: !SameSlot(ev, last))
    && (last.ExpertsRuled? ==> exists ev :: ev in before && Supports(ev, last))
    && (last.Unrelated? ==> !last.tx.kind.AdjudicationResult? && !last.tx.kind.AppealResult?)
  }

  lemma PartsShrink(before: seq<Event>, last: Event)
    ensures Once(before + [last]) && Founded(before + [last]) && Apolitical(before + [last])
      <==> Once(before) && Founded(before) && Apolitical(before) && Fits(before, last)
  {
    var log, n := before + [last], |before|;
    assert forall i | 0 <= i < n :: log[i] == before[i];
    if Once(log) && Founded(log) && Apolitical(log) {
      WholeFits(before, last);
      assert Apolitical(before) by { assert forall ev | ev in before :: ev in log; }
    }
    if Once(before) && Founded(before) && Apolitical(before) && Fits(before, last) {
      forall i, j | 0 <= i < j < |log| ensures !SameSlot(log[i], log[j]) {
        assert log[i] in before;
        assert j < n ==> log[j] == before[j];
      }
      assert Apolitical(log) by { assert forall ev | ev in log :: ev == last || ev in before; }
      forall j | 0 <= j < |log| && log[j].ExpertsRuled? ensures exists i | 0 <= i < j :: Supports(log[i], log[j]) {
        if j < n {
          var i :| 0 <= i < j && Supports(before[i], before[j]);
          assert Supports(log[i], log[j]);
        } else {
          var ev :| ev in before && Supports(ev, last);
          var i :| 0 <= i < n && before[i] == ev;
          assert Supports(log[i], log[j]);
        }
      }
    }
  }

  lemma WholeFits(before: seq<Event>, last: Event)
    requires Once(before + [last]) && Founded(before + [last]) && Apolitical(before + [last])
    ensures Once(before) && Founded(before) && Fits(before, last)
  {
    var log, n := before + [last], |before|;
    assert forall i | 0 <= i < n :: log[i] == before[i];
    forall ev | ev in before ensures !SameSlot(ev, last) {
      var i :| 0 <= i < n && before[i] == ev;
      assert !SameSlot(log[i], log[n]);
    }
    forall i, j | 0 <= i < j < n ensures !SameSlot(before[i], before[j]) {
      assert !SameSlot(log[i], log[j]);
    }
    forall j | 0 <= j < n && before[j].ExpertsRuled? ensures exists i | 0 <= i < j :: Supports(before[i], before[j]) {
      var i :| 0 <= i < j && Supports(log[i], log[j]);
      assert Supports(before[i], before[j]);
    }
    if last.ExpertsRuled? {
      var i :| 0 <= i < n && Supports(log[i], log[n]);
      assert before[i] in before && Supports(before[i], last);
    }
    assert last in log;
  }

  lemma LegalLast(before: seq<Event>, last: Event)
    requires Once(before) && Founded(before)
    ensures Fits(before, last) <==> MayFollow(before, last)
  {
    if !last.Unrelated? {
      JuryOnIs(before, last.item);
      ExpertsOnIs(before, last.item);
      ExpertsFounded(before, last.item);
      hide JuryOn, ExpertsOn, Succeeds, Founded;
      if JuryOn(before, last.item).Some? {
        var i :| 0 <= i < |before| && before[i].JuryRuled? && before[i].item == last.item && before[i].jury == JuryOn(before, last.item).value;
        assert before[i] in before;
        forall ev | ev in before && ev.JuryRuled? && ev.item == last.item ensures ev == before[i] {
          var j :| 0 <= j < |before| && before[j] == ev;
          assert SameSlot(before[i], before[j]);
        }
      }
    }
  }

  lemma ExpertsFounded(log: seq<Event>, item: string)
    requires Founded(log)
    ensures (exists ev :: ev in log && ev.ExpertsRuled? && ev.item == item) ==> exists ev :: ev in log && ev.JuryRuled? && ev.item == item
  {
    if ev :| ev in log && ev.ExpertsRuled? && ev.item == item {
      var j :| 0 <= j < |log| && log[j] == ev;
      var i :| 0 <= i < j && Supports(log[i], log[j]);
      assert log[i] in log;
    }
  }

  lemma {:induction false} InsertOnce(ev: Event, log: seq<Event>)
    requires Once(log) && InOrder(log) && forall x | x in log :: !SameSlot(ev, x)
    ensures Once(InsertEvent(ev, log))
  {
    if log != [] && Stamp(log[0]) < Stamp(ev) {
      InsertOnce(ev, log[1..]);
      InsertedEvents(ev, log[1..]);
      var rest := InsertEvent(ev, log[1..]);
      assert log[0] in log;
      forall x | x in rest ensures !SameSlot(log[0], x) {
        if x != ev {
          var j :| 0 <= j < |log[1..]| && log[1..][j] == x;
          assert !SameSlot(log[0], log[j + 1]);
        }
      }
    }
  }

  lemma {:induction false} SortOnce(log: seq<Event>)
    requires Once(log)
    ensures Once(SortEvents(log))
  {
    if log != [] {
      SortOnce(log[1..]);
      SortedEvents(log[1..]);
      forall x | x in SortEvents(log[1..]) ensures !SameSlot(log[0], x) {
        assert x in log[1..];
        var j :| 0 <= j < |log[1..]| && log[1..][j] == x;
        assert !SameSlot(log[0], log[j + 1]);
      }
      InsertOnce(log[0], SortEvents(log[1..]));
    }
  }

  /** Every appeal result is stamped no earlier than the verdict it answers. */
  ghost predicate AppealsAfterVerdicts(log: seq<Event>) {
    forall x, y | x in log && y in log && x.JuryRuled? && y.ExpertsRuled? && x.item == y.item :: x.at <= y.at
  }

  lemma SortFounded(log: seq<Event>)
    requires Once(log) && Founded(log) && AppealsAfterVerdicts(log)
    ensures Founded(SortEvents(log))
  {
    var sorted := SortEvents(log);
    SortedEvents(log);
    SortOnce(log);
    forall j | 0 <= j < |sorted| && sorted[j].ExpertsRuled? ensures exists i | 0 <= i < j :: Supports(sorted[i], sorted[j]) {
      var y := sorted[j];
      assert y in sorted && y in log;
      var n :| 0 <= n < |log| && log[n] == y;
      var m :| 0 <= m < n && Supports(log[m], log[n]);
      var x := log[m];
      assert x in log && Stamp(x) <= Stamp(y);
      assert Before(log, x, y);
      SortKeeps(log, x, y);
      var i, k :| 0 <= i < k < |sorted| && sorted[i] == x && sorted[k] == y;
      assert SameSlot(sorted[k], sorted[j]) && SameSlot(sorted[j], sorted[k]);
      assert k == j;
    }
  }

  lemma SortStaysLegal(log: seq<Event>)
    requires Legal(log) && AppealsAfterVerdicts(log)
    ensures Legal(SortEvents(log))
  {
    LegalMeans(log);
    LegalMeans(SortEvents(log));
    SortOnce(log);
    SortFounded(log);
    SortedEvents(log);
    hide Legal, SortEvents;
    assert Apolitical(SortEvents(log));
  }

  /** Where every appeal result is stamped no earlier than its item's verdict, the replayed offence count
      is the number of upheld items and the guard refuses nothing, in whatever order things were committed. */
  lemma ReplayCountsUpheldItems(p: Params, log: seq<Event>, author: string)
    requires Legal(log) && AppealsAfterVerdicts(log)
    ensures Replay(p, Txs(log), author).offenses == |UpheldItems(log, author)|
    ensures Suppressed(p, SortByTime(Txs(log)), author) == 0
  {
    hide Legal, SortEvents, SortByTime, Replay, UpheldItems, Txs, Suppressed, AppealsAfterVerdicts;
    SortStaysLegal(log);
    LegalNeverSuppresses(p, SortEvents(log), author);
    TxsSort(log);
    ReplayCount(p, log, author);
  }

  /** Otherwise it can: an appeal result stamped before the verdict it overturns leaves an offence that
      nothing stands behind. */
  lemma EarlyAppealMiscounts(p: Params, item: string, author: string) returns (log: seq<Event>)
    ensures Legal(log) && UpheldItems(log, author) == {} && Replay(p, Txs(log), author).offenses == 1
  {
    hide Txs, Replay, SortByTime, ScoreOf, Legal, UpheldItems;
    var r2 := Result2(Upheld, false, false, Some(author), 0, None, None);
    var r3 := Result3(Dismissed, true, false, false, Some(author), Some(Upheld), None, None, 0, 0);
    var verdict, appeal := JuryRuled(item, r2, 2), ExpertsRuled(item, r3, 1);
    log := [verdict, appeal];
    TwoEvents(verdict, appeal, author);
    ReplayIsSortedFold(p, Txs(log), author);
    SortTwo(TxOf(verdict), TxOf(appeal));
    CountOfTwo(p, TxOf(appeal), TxOf(verdict), author);
  }

  lemma CountOfTwo(p: Params, x: Tx, y: Tx, id: string)
    requires Target(x) == Some(id) && Target(y) == Some(id)
    ensures ScoreOf(p, [x, y], id).offenses == NextOffenses(y, NextOffenses(x, 0))
  {
    hide ScoreOf, NextOffenses, Target;
    ScoreOfTwo(p, x, y, id);
  }

  lemma TwoEvents(verdict: Event, appeal: Event, author: string)
    requires verdict.JuryRuled? && appeal.ExpertsRuled? && verdict.item == appeal.item
    requires Succeeds(verdict.jury, appeal.appeal) && appeal.appeal.overturned && appeal.appeal.verdict.Dismissed?
    ensures Legal([verdict, appeal]) && UpheldItems([verdict, appeal], author) == {}
    ensures Txs([verdict, appeal]) == [TxOf(verdict), TxOf(appeal)]
  {
    var log := [verdict, appeal];
    assert log[..1] == [verdict] && [verdict][..0] == [];
    assert JuryOn([], verdict.item).None? && ExpertsOn([], verdict.item).None?;
    assert JuryOn([verdict], verdict.item) == Some(verdict.jury) && ExpertsOn([verdict], verdict.item).None?;
    hide Succeeds;
    assert Legal([verdict]) && Legal(log);
    assert JuryOn(log, verdict.item) == Some(verdict.jury) && ExpertsOn(log, verdict.item) == Some(appeal.appeal);
    assert Items(log) == {verdict.item};
    assert Txs([verdict]) == [TxOf(verdict)];
  }
}
