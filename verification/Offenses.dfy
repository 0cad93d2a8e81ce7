/** The offence count over a whole log, in commit order: verdicts on many items, by many authors, interleaved. */
module Offenses {
  // RESULT transactions carry the count (node/src/score-effects.js); their contents are those the batch
  // builders produce (node/src/jury.js).

  import opened Common
  import opened Score
  import opened ScoreReplay
  import opened Ballots
  import opened Settlement
  import opened Appeals
  import opened Episodes
  import PathIndependence

  datatype Event =
    | JuryRuled(item: string, jury: Result2, at: int)
    | ExpertsRuled(item: string, appeal: Result3, at: int)
    | Unrelated(tx: Tx)

  function TxOf(ev: Event): Tx {
    match ev
    case JuryRuled(_, r, at) => Tx(AdjudicationResult, at, None, r.author, None, None, None, Some(r.verdict), None, false)
    case ExpertsRuled(_, r, at) => Tx(AppealResult, at, None, r.author, None, None, None, Some(r.verdict), r.stage2, r.overturned)
    case Unrelated(tx) => tx
  }

  function Txs(log: seq<Event>): seq<Tx> {
    if log == [] then [] else Txs(log[..|log| - 1]) + [TxOf(log[|log| - 1])]
  }

  // ---------------------------------------------------------------- verdicts so far

  function JuryOn(log: seq<Event>, item: string): Option<Result2> {
    if log == [] then None else
    var last := log[|log| - 1];
    if last.JuryRuled? && last.item == item then Some(last.jury) else JuryOn(log[..|log| - 1], item)
  }

  function ExpertsOn(log: seq<Event>, item: string): Option<Result3> {
    if log == [] then None else
    var last := log[|log| - 1];
    if last.ExpertsRuled? && last.item == item then Some(last.appeal) else ExpertsOn(log[..|log| - 1], item)
  }

  /** The verdict that stands on an item. */
  function StandingOn(log: seq<Event>, item: string): Option<Verdict> {
    var r2, r3 := JuryOn(log, item), ExpertsOn(log, item);
    if r2.None? then None
    else if r3.Some? && (r3.value.overturned || (r2.value.verdict.NoQuorum? && !r3.value.defaulted)) then Some(r3.value.verdict)
    else if r2.value.verdict.NoQuorum? then None
    else Some(r2.value.verdict)
  }

  predicate UpheldAgainst(log: seq<Event>, item: string, author: string) {
    StandingOn(log, item) == Some(Upheld) && JuryOn(log, item).value.author == Some(author)
  }

  function Items(log: seq<Event>): set<string> {
    set ev | ev in log && ev.JuryRuled? :: ev.item
  }

  /** The items on which a dispute against the author stands upheld. */
  function UpheldItems(log: seq<Event>, author: string): set<string> {
    set item | item in Items(log) && UpheldAgainst(log, item, author)
  }

  // ---------------------------------------------------------------- logs that can happen

  /** What an appeal result says follows from the jury's result on the same item. */
  ghost predicate Succeeds(r2: Result2, r3: Result3) {
    && r3.author == r2.author && r3.stage2 == Some(r2.verdict)
    && (r3.overturned <==> !r3.defaulted && Overturns(Some(r2.verdict), r3.verdict))
    && !r3.verdict.NoQuorum? && (r3.defaulted ==> r3.verdict.Dismissed?)
  }

  /** The batch builders produce such results. */
  lemma BuildersSucceed(k: Tariff, e: Episode)
    requires WellFormed(k, e) && e.appeal.Some?
    ensures Succeeds(Jury(k, e), Experts(k, e))
  {
    PathIndependence.ExpertFacts(k, e);
    hide WellFormed, RulingOf, ExpertsDecide, Decisive, Quorate, FreshPenalty, Penalize;
  }

  /** One result of each stage to an item, the jury's first; the chain drops any other. */
  ghost predicate MayFollow(log: seq<Event>, ev: Event) {
    match ev
    case JuryRuled(item, _, _) => JuryOn(log, item).None? && ExpertsOn(log, item).None?
    case ExpertsRuled(item, r, _) =>
      JuryOn(log, item).Some? && Succeeds(JuryOn(log, item).value, r) && ExpertsOn(log, item).None?
    case Unrelated(tx) => !tx.kind.AdjudicationResult? && !tx.kind.AppealResult?
  }

  ghost predicate Legal(log: seq<Event>) {
    log != [] ==> Legal(log[..|log| - 1]) && MayFollow(log[..|log| - 1], log[|log| - 1])
  }

  // ---------------------------------------------------------------- the count

  lemma {:induction false} JuryItems(log: seq<Event>, item: string)
    ensures JuryOn(log, item).Some? <==> item in Items(log)
  {
    if log != [] {
      JuryItems(log[..|log| - 1], item);
      ItemsLast(log);
    }
  }

  lemma ItemsLast(log: seq<Event>)
    requires log != []
    ensures var last := log[|log| - 1];
      Items(log) == Items(log[..|log| - 1]) + if last.JuryRuled? then {last.item} else {}
  {
    var before, last := log[..|log| - 1], log[|log| - 1];
    assert log == before + [last];
    forall item ensures item in Items(log) <==> item in Items(before) || (last.JuryRuled? && item == last.item) {
      if item in Items(before) {
        var ev :| ev in before && ev.JuryRuled? && ev.item == item;
        assert ev in log;
      }
      if item in Items(log) {
        var ev :| ev in log && ev.JuryRuled? && ev.item == item;
        assert ev == last || ev in before;
      }
      assert last in log;
    }
  }

  /** An event moves only its own item. */
  lemma OthersStay(log: seq<Event>, item: string, author: string)
    requires log != []
    requires log[|log| - 1].Unrelated? || log[|log| - 1].item != item
    ensures UpheldAgainst(log, item, author) <==> UpheldAgainst(log[..|log| - 1], item, author)
  {}

  lemma UpheldItemsLast(log: seq<Event>, author: string)
    requires log != []
    ensures var before, last := log[..|log| - 1], log[|log| - 1];
      UpheldItems(log, author) ==
        if last.Unrelated? then UpheldItems(before, author)
        else if UpheldAgainst(log, last.item, author) then UpheldItems(before, author) + {last.item}
        else UpheldItems(before, author) - {last.item}
  {
    var before, last := log[..|log| - 1], log[|log| - 1];
    ItemsLast(log);
    forall item | last.Unrelated? || item != last.item
      ensures item in UpheldItems(log, author) <==> item in UpheldItems(before, author)
    {
      OthersStay(log, item, author);
    }
    if !last.Unrelated? {
      JuryItems(log, last.item);
      hide JuryOn, ExpertsOn;
    }
  }

  lemma {:induction false} TxsLast(log: seq<Event>)
    requires log != []
    ensures |Txs(log)| > 0 && Txs(log)[..|Txs(log)| - 1] == Txs(log[..|log| - 1]) && Txs(log)[|Txs(log)| - 1] == TxOf(log[|log| - 1])
  {}

  /** How one event moves the standing of its item, and the number it is worth. */
  lemma EventCounts(log: seq<Event>, author: string, count: int)
    requires Legal(log) && log != [] && !log[|log| - 1].Unrelated?
    requires count >= if UpheldAgainst(log[..|log| - 1], log[|log| - 1].item, author) then 1 else 0
    ensures var before, last := log[..|log| - 1], log[|log| - 1];
      var was, now := UpheldAgainst(before, last.item, author), UpheldAgainst(log, last.item, author);
      (if Target(TxOf(last)) == Some(author) then NextOffenses(TxOf(last), count) else count)
      == count + (if now then 1 else 0) - (if was then 1 else 0)
  {
    var before, last := log[..|log| - 1], log[|log| - 1];
    assert JuryOn(log, last.item) == if last.JuryRuled? then Some(last.jury) else JuryOn(before, last.item);
    assert ExpertsOn(log, last.item) == if last.ExpertsRuled? then Some(last.appeal) else ExpertsOn(before, last.item);
    hide JuryOn, ExpertsOn;
  }

  /** In every interleaving, the offence count of an author folded in commit order is the number of items
      on which a dispute stands upheld against that author. */
  lemma {:induction false} OffensesAreUpheldItems(p: Params, log: seq<Event>, author: string)
    requires Legal(log)
    ensures ScoreOf(p, Txs(log), author).offenses == |UpheldItems(log, author)|
  {
    if log == [] {
      assert UpheldItems(log, author) == {};
    } else {
      OffensesAreUpheldItems(p, log[..|log| - 1], author);
      CountedByOffenses(p, log, author);
      UpheldItemsMove(log, author, ScoreOf(p, Txs(log[..|log| - 1]), author).offenses);
      hide ScoreOf, Txs, UpheldItems, UpheldAgainst, NextOffenses, Target, TxOf;
    }
  }

  /** One event's effect on the count is that of its transaction. */
  lemma CountedByOffenses(p: Params, log: seq<Event>, author: string)
    requires log != []
    ensures var count, tx := ScoreOf(p, Txs(log[..|log| - 1]), author).offenses, TxOf(log[|log| - 1]);
      ScoreOf(p, Txs(log), author).offenses == if Target(tx) == Some(author) then NextOffenses(tx, count) else count
  {
    hide ScoreOf, Txs, TxOf, Target, NextOffenses;
    TxsLast(log);
    ScoreOfStep(p, Txs(log), author);
  }

  /** And so is its effect on the upheld items. */
  lemma UpheldItemsMove(log: seq<Event>, author: string, count: int)
    requires Legal(log) && log != [] && count == |UpheldItems(log[..|log| - 1], author)|
    ensures var tx := TxOf(log[|log| - 1]);
      |UpheldItems(log, author)| == if Target(tx) == Some(author) then NextOffenses(tx, count) else count
  {
    var before, last := log[..|log| - 1], log[|log| - 1];
    UpheldItemsLast(log, author);
    if last.Unrelated? {
      assert NextOffenses(TxOf(last), count) == count;
    } else {
      JuryItems(before, last.item);
      assert UpheldAgainst(before, last.item, author) <==> last.item in UpheldItems(before, author);
      hide UpheldAgainst, UpheldItems, Legal, Target, NextOffenses, TxOf;
      EventCounts(log, author, count);
    }
  }

  /** In commit order the guard on the count never swallows a decrement: when an upheld verdict is overturned, the author
      has an offence to give back, and it is given back. */
  lemma GuardNeverSuppresses(p: Params, log: seq<Event>, author: string)
    requires Legal(log) && log != [] && log[|log| - 1].ExpertsRuled?
    requires log[|log| - 1].appeal.overturned && log[|log| - 1].appeal.stage2 == Some(Upheld) && log[|log| - 1].appeal.author == Some(author)
    ensures ScoreOf(p, Txs(log[..|log| - 1]), author).offenses > 0
    ensures ScoreOf(p, Txs(log), author).offenses == ScoreOf(p, Txs(log[..|log| - 1]), author).offenses - 1
  {
    hide ScoreOf, Txs, UpheldItems;
    var before, last := log[..|log| - 1], log[|log| - 1];
    OffensesAreUpheldItems(p, before, author);
    UpheldIsCounted(log, author);
    hide Legal;
    TxsLast(log);
    ScoreOfStep(p, Txs(log), author);
  }

  lemma UpheldIsCounted(log: seq<Event>, author: string)
    requires Legal(log) && log != [] && log[|log| - 1].ExpertsRuled?
    requires log[|log| - 1].appeal.stage2 == Some(Upheld) && log[|log| - 1].appeal.author == Some(author)
    ensures |UpheldItems(log[..|log| - 1], author)| > 0
  {
    var before, item := log[..|log| - 1], log[|log| - 1].item;
    JuryItems(before, item);
    hide JuryOn, ExpertsOn, Items;
    assert item in UpheldItems(before, author);
  }
}
