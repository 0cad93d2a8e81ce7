/** What one transaction does to one score: node/src/score-effects.js. */
module Score {
  import opened Common

  /** The genesis constants, with the signs the protocol gives them. */
  datatype Params = Params(initial: int, maxTotal: int, linkBonus: int, maxLinks: int)

  predicate ValidParams(p: Params) {
    0 <= p.initial <= p.maxTotal && 0 <= p.linkBonus && 0 <= p.maxLinks
  }

  datatype Verdict = Upheld | Dismissed | ConservativeLabel | NoQuorum

  datatype Kind =
    | RegisterIdentity | LinkPlatform | ContentVerified | ContentRetracted | ScoreUpdate
    | AdjudicationResult | AppealResult
    | RevokeVoluntary | RevokeVp | RevokeDeceased | RevokeDevice
    | OtherKind

  /** The parts of a transaction that scoring reads. None stands for a missing, null or empty field,
      and for a delta that is not a finite number. */
  datatype Tx = Tx(kind: Kind, timestamp: int, tipId: Option<string>, authorTipId: Option<string>,
                   signerTipId: Option<string>, platform: Option<string>, delta: Option<int>,
                   verdict: Option<Verdict>, stage2: Option<Verdict>, overturned: bool)

  datatype State = State(score: int, offenses: int, frozen: bool, links: set<string>)

  function InitialState(p: Params): State {
    State(p.initial, 0, false, {})
  }

  predicate IsRevocation(k: Kind) {
    k.RevokeVoluntary? || k.RevokeVp? || k.RevokeDeceased? || k.RevokeDevice?
  }

  /** scoreTargetTipId. */
  function Target(tx: Tx): Option<string> {
    match tx.kind
    case RegisterIdentity | LinkPlatform | ScoreUpdate => tx.tipId
    case RevokeVoluntary | RevokeVp | RevokeDeceased | RevokeDevice => tx.tipId
    case AdjudicationResult => if tx.verdict == Some(Upheld) then tx.authorTipId else None
    case AppealResult =>
      if tx.overturned || (tx.stage2 == Some(NoQuorum) && tx.verdict == Some(Upheld)) then tx.authorTipId else None
    case ContentVerified | ContentRetracted | OtherKind => None
  }

  /** The delta before the freeze rule. */
  function RawDelta(p: Params, tx: Tx, cur: State): int {
    match tx.kind
    case LinkPlatform =>
      if tx.platform.Some? && tx.platform.value !in cur.links && |cur.links| < p.maxLinks then p.linkBonus else 0
    case ScoreUpdate => if tx.delta.Some? then tx.delta.value else 0
    case _ => 0
  }

  function NextOffenses(tx: Tx, offenses: int): int {
    match tx.kind
    case AdjudicationResult =>
      if tx.verdict == Some(Upheld) && tx.authorTipId.Some? then offenses + 1 else offenses
    case AppealResult =>
      if tx.overturned && tx.stage2 == Some(Upheld) && offenses > 0 then offenses - 1
      else if tx.overturned && tx.stage2 == Some(Dismissed) && tx.verdict == Some(Upheld) then offenses + 1
      else if tx.stage2 == Some(NoQuorum) && tx.verdict == Some(Upheld) then offenses + 1
      else offenses
    case _ => offenses
  }

  /** The delta that takes effect: after any revocation only penalties do. */
  function Delta(p: Params, tx: Tx, cur: State): int {
    var raw := RawDelta(p, tx, cur);
    if (cur.frozen || IsRevocation(tx.kind)) && raw > 0 then 0 else raw
  }

  /** applyScoreEffect. */
  function Apply(p: Params, tx: Tx, cur: State): State {
    var delta := Delta(p, tx, cur);
    State(if delta != 0 then Max(0, Min(p.maxTotal, cur.score + delta)) else cur.score,
          NextOffenses(tx, cur.offenses),
          cur.frozen || IsRevocation(tx.kind),
          if tx.kind.LinkPlatform? && tx.platform.Some? then cur.links + {tx.platform.value} else cur.links)
  }

  /** A run of transactions, oldest first. */
  function Run(p: Params, txs: seq<Tx>, start: State): State {
    if txs == [] then start else Apply(p, txs[|txs| - 1], Run(p, txs[..|txs| - 1], start))
  }

  lemma {:induction false} RunAppend(p: Params, a: seq<Tx>, b: seq<Tx>, start: State)
    ensures Run(p, a + b, start) == Run(p, b, Run(p, a, start))
  {
    if b == [] {
      assert a + b == a;
    } else {
      RunAppend(p, a, b[..|b| - 1], start);
      assert (a + b)[..|a + b| - 1] == a + b[..|b| - 1];
    }
  }

  // ---------------------------------------------------------------- safety over whole runs

  ghost predicate InRange(p: Params, s: State) {
    0 <= s.score <= p.maxTotal && s.offenses >= 0
  }

  /** Whatever is committed, in whatever order: the score stays within its range and no offence
      count goes negative. */
  lemma {:induction false} RunInRange(p: Params, txs: seq<Tx>, start: State)
    requires ValidParams(p) && InRange(p, start)
    ensures InRange(p, Run(p, txs, start))
  {
    if txs != [] {
      RunInRange(p, txs[..|txs| - 1], start);
    }
  }

  /** Freezing is for good, and a frozen score never rises again. */
  lemma {:induction false} FrozenNeverRises(p: Params, txs: seq<Tx>, start: State)
    requires ValidParams(p) && InRange(p, start) && start.frozen
    ensures Run(p, txs, start).frozen && Run(p, txs, start).score <= start.score
  {
    if txs != [] {
      FrozenNeverRises(p, txs[..|txs| - 1], start);
      RunInRange(p, txs[..|txs| - 1], start);
    }
  }

  /** What a run's platform links added to the score before clamping. */
  function LinkDeltas(p: Params, txs: seq<Tx>, start: State): int {
    if txs == [] then 0 else
    var before, last := txs[..|txs| - 1], txs[|txs| - 1];
    LinkDeltas(p, before, start) + if last.kind.LinkPlatform? then Delta(p, last, Run(p, before, start)) else 0
  }

  /** The platforms a run links before it freezes. */
  function LinkedInTime(p: Params, txs: seq<Tx>, start: State): set<string> {
    if txs == [] then start.links else
    var before, last := txs[..|txs| - 1], txs[|txs| - 1];
    LinkedInTime(p, before, start) +
    if last.kind.LinkPlatform? && last.platform.Some? && !Run(p, before, start).frozen then {last.platform.value} else {}
  }

  lemma {:induction false} LinkedUntilFrozen(p: Params, txs: seq<Tx>, start: State)
    requires !Run(p, txs, start).frozen
    ensures LinkedInTime(p, txs, start) == Run(p, txs, start).links
  {
    if txs != [] {
      LinkedUntilFrozen(p, txs[..|txs| - 1], start);
    }
  }

  /** Every run pays the link bonus once for each distinct platform linked before the freeze, up to
      the maximum number of accounts, and nothing for links after it. */
  lemma {:induction false} LinkBonusExact(p: Params, txs: seq<Tx>)
    requires ValidParams(p)
    ensures LinkDeltas(p, txs, InitialState(p)) ==
      p.linkBonus * Min(p.maxLinks, |LinkedInTime(p, txs, InitialState(p))|)
  {
    if txs != [] {
      var start, before := InitialState(p), txs[..|txs| - 1];
      LinkBonusExact(p, before);
      var paid := LinkStep(p, txs);
      hide LinkDeltas, LinkedInTime, InitialState, ValidParams;
      OneMore(p.linkBonus, Min(p.maxLinks, |LinkedInTime(p, before, start)|));
    }
  }

  /** One transaction adds a bonus exactly if it adds a platform that still counts. */
  lemma LinkStep(p: Params, txs: seq<Tx>) returns (paid: bool)
    requires ValidParams(p) && txs != []
    ensures var start, before := InitialState(p), txs[..|txs| - 1];
      && LinkDeltas(p, txs, start) == LinkDeltas(p, before, start) + (if paid then p.linkBonus else 0)
      && Min(p.maxLinks, |LinkedInTime(p, txs, start)|) == Min(p.maxLinks, |LinkedInTime(p, before, start)|) + (if paid then 1 else 0)
  {
    var start, before, last := InitialState(p), txs[..|txs| - 1], txs[|txs| - 1];
    var s, linked := Run(p, before, start), LinkedInTime(p, before, start);
    paid := false;
    if last.kind.LinkPlatform? && last.platform.Some? && !s.frozen {
      LinkedUntilFrozen(p, before, start);
      assert LinkedInTime(p, txs, start) == linked + {last.platform.value};
      assert last.platform.value in linked ==> linked + {last.platform.value} == linked;
      paid := last.platform.value !in linked && |linked| < p.maxLinks;
    } else {
      assert LinkedInTime(p, txs, start) == linked;
    }
  }

  lemma OneMore(b: int, n: int)
    ensures b * (n + 1) == b * n + b
  {}

  // ---------------------------------------------------------------- adjudicationDelta

  datatype Origin = OH | AA | AG | MX

  /** First, second, and third-or-later offence. */
  datatype Ladder = Ladder(first: int, second: int, third: int)
  datatype Penalties = Penalties(ohAsAg: Ladder, ohAsAa: Ladder, aaAsAg: Ladder, minorFalsehood: int, majorFalsehood: int)
  datatype VerdictData = VerdictData(declared: Option<Origin>, confirmed: Option<Origin>, verdict: Verdict,
                                     factualFalsehood: bool, major: bool)

  predicate ValidLadder(l: Ladder) { l.third <= l.second <= l.first <= 0 }

  predicate ValidPenalties(q: Penalties) {
    ValidLadder(q.ohAsAg) && ValidLadder(q.ohAsAa) && ValidLadder(q.aaAsAg) && q.minorFalsehood <= 0 && q.majorFalsehood <= 0
  }

  function Rung(l: Ladder, offenses: int): int {
    if offenses >= 2 then l.third else if offenses >= 1 then l.second else l.first
  }

  function AdjudicationDelta(q: Penalties, d: VerdictData, offenses: int): int {
    if !d.verdict.Upheld? then 0
    else if d.declared == Some(OH) && d.confirmed == Some(AG) then Rung(q.ohAsAg, offenses)
    else if d.declared == Some(OH) && d.confirmed == Some(AA) then Rung(q.ohAsAa, offenses)
    else if d.declared == Some(AA) && d.confirmed == Some(AG) then Rung(q.aaAsAg, offenses)
    else if d.factualFalsehood then (if d.major then q.majorFalsehood else q.minorFalsehood)
    else 0
  }

  /** A penalty is never a reward, only an upheld verdict carries one, and it never softens with the
      number of earlier offences. */
  lemma PenaltiesEscalate(q: Penalties, d: VerdictData, few: int, many: int)
    requires ValidPenalties(q) && few <= many
    ensures AdjudicationDelta(q, d, many) <= AdjudicationDelta(q, d, few) <= 0
    ensures AdjudicationDelta(q, d, few) != 0 ==> d.verdict == Upheld
  {}

  /** How much of a work its origin says a machine made; a mixed origin is not on this scale. */
  function MachineShare(o: Origin): Option<nat> {
    match o
    case OH => Some(0)
    case AA => Some(1)
    case AG => Some(2)
    case MX => None
  }

  /** The declared origin claims less machine work than the confirmed one. */
  predicate Understates(declared: Origin, confirmed: Origin) {
    MachineShare(declared).Some? && MachineShare(confirmed).Some? && MachineShare(declared).value < MachineShare(confirmed).value
  }

  /** Each pair of origins has its own ladder. */
  function LadderOf(q: Penalties, declared: Origin, confirmed: Origin): Ladder
    requires Understates(declared, confirmed)
  {
    map[(OH, AG) := q.ohAsAg, (OH, AA) := q.ohAsAa, (AA, AG) := q.aaAsAg][(declared, confirmed)]
  }

  function RungOf(l: Ladder, offenses: int): int {
    [l.first, l.second, l.third][Max(0, Min(offenses, 2))]
  }

  /** Who is penalised for what: an upheld verdict charges an author who understated the machine's part, by
      the ladder of the two origins and the number of earlier offences; failing that, a factual falsehood. */
  lemma PenaltyTable(q: Penalties, d: VerdictData, offenses: int)
    ensures !d.verdict.Upheld? ==> AdjudicationDelta(q, d, offenses) == 0
    ensures d.verdict.Upheld? ==>
      var understated := d.declared.Some? && d.confirmed.Some? && Understates(d.declared.value, d.confirmed.value);
      && (understated ==> AdjudicationDelta(q, d, offenses) == RungOf(LadderOf(q, d.declared.value, d.confirmed.value), offenses))
      && (!understated && d.factualFalsehood ==>
            AdjudicationDelta(q, d, offenses) == if d.major then q.majorFalsehood else q.minorFalsehood)
      && (!understated && !d.factualFalsehood ==> AdjudicationDelta(q, d, offenses) == 0)
  {}
}
