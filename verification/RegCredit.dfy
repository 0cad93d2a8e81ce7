/** Registration-credit rate caps: node/src/reg-credit.js, and the guard the commit handler puts on awards. */
module RegCredit {
  import opened Common
  import opened Calendar

  datatype Caps = Caps(base: int, perDay: int, perMonth: int, total: int)

  predicate ValidCaps(c: Caps) {
    0 < c.base && 0 <= c.perDay && 0 <= c.perMonth && 0 <= c.total
  }

  /** The parts of a SCORE_UPDATE that matter here; a missing reason is "" and a missing delta 0. */
  datatype Credit = Credit(timestamp: nat, tipId: string, reason: string, delta: int)

  const FAMILY_PREFIX := "reg_credit"
  const AWARD_PREFIX := "reg_credit:"
  const REVERSAL_PREFIX := "reg_credit_rev:"
  const RESTORE_PREFIX := "reg_credit_restore:"

  predicate IsAward(t: Credit) { AWARD_PREFIX <= t.reason }
  predicate IsRestore(t: Credit) { RESTORE_PREFIX <= t.reason }
  predicate InFamily(t: Credit) { FAMILY_PREFIX <= t.reason }

  /** The three prefixes are told apart by the character after "reg_credit"; all three are in the family. */
  lemma PrefixesDisjoint(t: Credit)
    ensures !(IsAward(t) && IsRestore(t)) && !(IsAward(t) && REVERSAL_PREFIX <= t.reason)
    ensures !(IsRestore(t) && REVERSAL_PREFIX <= t.reason)
    ensures IsAward(t) || IsRestore(t) || REVERSAL_PREFIX <= t.reason ==> InFamily(t)
  {
    var n := |FAMILY_PREFIX|;
    assert AWARD_PREFIX[n] == ':' && REVERSAL_PREFIX[n] == '_' && RESTORE_PREFIX[n] == '_';
    assert REVERSAL_PREFIX[n + 3] == 'v' && RESTORE_PREFIX[n + 3] == 's';
    assert AWARD_PREFIX[..n] == FAMILY_PREFIX && REVERSAL_PREFIX[..n] == FAMILY_PREFIX && RESTORE_PREFIX[..n] == FAMILY_PREFIX;
  }

  // ---------------------------------------------------------------- windows

  const MS_PER_DAY: nat := 86_400_000

  function DayOf(ms: nat): nat {
    ms / MS_PER_DAY
  }

  /** The number in columns 8 and 9 of the ISO text of an instant. Up to the year 9999 it is the day of
      the month; later years are written with a sign and six digits, which moves the month there. */
  function IsoField(ms: nat): int {
    var c := CivilOf(DayOf(ms));
    if c.year <= 9999 then c.date else c.month
  }

  function DayStart(atMs: nat): int {
    atMs - atMs % MS_PER_DAY
  }

  function MonthWindow(atMs: nat): int {
    DayStart(atMs) - (IsoField(atMs) - 1) * MS_PER_DAY
  }

  function FirstOfMonth(ms: nat): int
    requires IsCivil(CivilOf(DayOf(ms)))
  {
    var c := CivilOf(DayOf(ms));
    DayNumber(Civil(c.year, c.month, 1)) * MS_PER_DAY
  }

  /** The month window opens at midnight on day 1 of the same Gregorian month, exactly up to the year
      9999 (and later only on days whose number equals their month's). */
  lemma MonthWindowIsCalendarMonth(atMs: nat)
    ensures IsCivil(CivilOf(DayOf(atMs)))
    ensures MonthWindow(atMs) == FirstOfMonth(atMs)
      <==> CivilOf(DayOf(atMs)).year <= 9999 || CivilOf(DayOf(atMs)).date == CivilOf(DayOf(atMs)).month
  {
    var day, c := DayOf(atMs), CivilOf(DayOf(atMs));
    BackToTheFirst(day);
    assert DayStart(atMs) == day * MS_PER_DAY;
    assert FirstOfMonth(atMs) == (day - (c.date - 1)) * MS_PER_DAY;
    assert MonthWindow(atMs) - FirstOfMonth(atMs) == (c.date - IsoField(atMs)) * MS_PER_DAY;
  }

  // ---------------------------------------------------------------- sums

  function Sum(txs: seq<Credit>, which: Credit -> bool): int {
    if txs == [] then 0
    else Sum(txs[..|txs| - 1], which) + if which(txs[|txs| - 1]) then txs[|txs| - 1].delta else 0
  }

  function FamilyOf(tip: string): Credit -> bool {
    (t: Credit) => t.tipId == tip && InFamily(t)
  }

  function AwardsFrom(tip: string, start: int): Credit -> bool {
    (t: Credit) => t.tipId == tip && IsAward(t) && t.timestamp >= start
  }

  datatype Sums = Sums(netTotal: int, dailySum: int, monthlySum: int)

  function RegCreditSums(txs: seq<Credit>, tip: string, atMs: nat): Sums {
    Sums(Sum(txs, FamilyOf(tip)), Sum(txs, AwardsFrom(tip, DayStart(atMs))), Sum(txs, AwardsFrom(tip, MonthWindow(atMs))))
  }

  function RegCreditRemaining(c: Caps, s: Sums): int {
    Min(c.base, Min(Max(0, c.total - s.netTotal), Min(Max(0, c.perDay - s.dailySum), Max(0, c.perMonth - s.monthlySum))))
  }

  // ---------------------------------------------------------------- runs

  /** One award, given what is already on the log. `slack` is how far its delta may exceed the room
      that is left: 0 when the delta is checked against the room. */
  ghost predicate Admits(c: Caps, log: seq<Credit>, t: Credit, slack: nat) {
    var room := RegCreditRemaining(c, RegCreditSums(log, t.tipId, t.timestamp));
    0 < room && t.delta <= room + slack
  }

  /** Awards and restores add, everything else in the family takes away. */
  ghost predicate WellSigned(t: Credit) {
    && (IsAward(t) ==> t.delta > 0)
    && (IsRestore(t) ==> t.delta >= 0)
    && (InFamily(t) && !IsAward(t) && !IsRestore(t) ==> t.delta <= 0)
  }

  /** A log in which every award stamped from `gate` on was admitted when it was added, in whatever order
      of timestamps. Awards stamped earlier are not checked. */
  ghost predicate Guarded(c: Caps, gate: nat, log: seq<Credit>, slack: nat) {
    log != [] ==>
      var before, last := log[..|log| - 1], log[|log| - 1];
      && Guarded(c, gate, before, slack) && WellSigned(last)
      && (IsAward(last) && last.timestamp >= gate ==> Admits(c, before, last, slack))
  }

  function AwardsOnDay(tip: string, day: nat): Credit -> bool {
    (t: Credit) => t.tipId == tip && IsAward(t) && DayOf(t.timestamp) == day
  }

  function AwardsInMonth(tip: string, year: int, month: int): Credit -> bool {
    (t: Credit) =>
      t.tipId == tip && IsAward(t) && CivilOf(DayOf(t.timestamp)).year == year && CivilOf(DayOf(t.timestamp)).month == month
  }

  function AwardsOf(tip: string): Credit -> bool {
    (t: Credit) => t.tipId == tip && IsAward(t)
  }

  function Restores(tip: string): Credit -> bool {
    (t: Credit) => t.tipId == tip && IsRestore(t)
  }

  function Reversals(tip: string): Credit -> bool {
    (t: Credit) => t.tipId == tip && REVERSAL_PREFIX <= t.reason
  }

  /** From place `n` on, the log holds no award of the window that escaped the guard. */
  ghost predicate CheckedFrom(gate: nat, log: seq<Credit>, n: nat, window: Credit -> bool) {
    forall i | n <= i < |log| && window(log[i]) :: log[i].timestamp >= gate
  }

  /** A window that takes in more of a guarded log's awards sums to no less. */
  lemma {:induction false} SumGrows(c: Caps, gate: nat, log: seq<Credit>, slack: nat, few: Credit -> bool, many: Credit -> bool)
    requires Guarded(c, gate, log, slack)
    requires forall t {:trigger few(t)} {:trigger many(t)} :: few(t) ==> many(t)
    requires forall t {:trigger many(t)} :: many(t) ==> IsAward(t)
    ensures 0 <= Sum(log, few) <= Sum(log, many)
  {
    if log != [] {
      SumGrows(c, gate, log[..|log| - 1], slack, few, many);
      var last := log[|log| - 1];
      assert few(last) ==> many(last);
    }
  }

  lemma DayWindowCovers(t: Credit, at: nat)
    requires DayOf(t.timestamp) == DayOf(at)
    ensures t.timestamp >= DayStart(at)
  {}

  lemma MonthWindowCovers(t: Credit, at: nat)
    requires CivilOf(DayOf(at)).year <= 9999
    requires CivilOf(DayOf(t.timestamp)).year == CivilOf(DayOf(at)).year
    requires CivilOf(DayOf(t.timestamp)).month == CivilOf(DayOf(at)).month
    ensures t.timestamp >= MonthWindow(at)
  {
    MonthWindowIsCalendarMonth(at);
    BackToTheFirst(DayOf(at));
    BackToTheFirst(DayOf(t.timestamp));
    var first, day := DayNumber(Civil(CivilOf(DayOf(at)).year, CivilOf(DayOf(at)).month, 1)), DayOf(t.timestamp);
    assert first <= day;
    assert t.timestamp >= day * MS_PER_DAY >= first * MS_PER_DAY;
  }

  /** A day never holds more than the cap and the slack, or than what it held before the last award that
      escaped the guard. */
  lemma {:induction false} DayHolds(c: Caps, gate: nat, log: seq<Credit>, slack: nat, n: nat, tip: string, day: nat)
    requires ValidCaps(c) && Guarded(c, gate, log, slack) && n <= |log| && CheckedFrom(gate, log, n, AwardsOnDay(tip, day))
    ensures Sum(log, AwardsOnDay(tip, day)) <= Max(Sum(log[..n], AwardsOnDay(tip, day)), c.perDay + slack)
  {
    if n == |log| {
      assert log[..n] == log;
    } else {
      var before, last := log[..|log| - 1], log[|log| - 1];
      assert before[..n] == log[..n];
      DayHolds(c, gate, before, slack, n, tip, day);
      if AwardsOnDay(tip, day)(last) {
        var window := AwardsFrom(tip, DayStart(last.timestamp));
        forall t | AwardsOnDay(tip, day)(t) ensures window(t) {
          DayWindowCovers(t, last.timestamp);
        }
        SumGrows(c, gate, before, slack, AwardsOnDay(tip, day), window);
      }
    }
  }

  /** Nor does a month, up to the year 9999. */
  lemma {:induction false} MonthHolds(c: Caps, gate: nat, log: seq<Credit>, slack: nat, n: nat, tip: string, year: int, month: int)
    requires ValidCaps(c) && Guarded(c, gate, log, slack) && year <= 9999
    requires n <= |log| && CheckedFrom(gate, log, n, AwardsInMonth(tip, year, month))
    ensures Sum(log, AwardsInMonth(tip, year, month)) <= Max(Sum(log[..n], AwardsInMonth(tip, year, month)), c.perMonth + slack)
  {
    if n == |log| {
      assert log[..n] == log;
    } else {
      var before, last := log[..|log| - 1], log[|log| - 1];
      assert before[..n] == log[..n];
      MonthHolds(c, gate, before, slack, n, tip, year, month);
      if AwardsInMonth(tip, year, month)(last) {
        var window := AwardsFrom(tip, MonthWindow(last.timestamp));
        forall t | AwardsInMonth(tip, year, month)(t) ensures window(t) {
          MonthWindowCovers(t, last.timestamp);
        }
        SumGrows(c, gate, before, slack, AwardsInMonth(tip, year, month), window);
      }
    }
  }

  /** Over a lifetime the net credit stays within the total, or what it came to before the last award that
      escaped the guard, plus what verdicts restored since. */
  lemma {:induction false} LifetimeHolds(c: Caps, gate: nat, log: seq<Credit>, slack: nat, n: nat, tip: string)
    requires ValidCaps(c) && Guarded(c, gate, log, slack) && n <= |log| && CheckedFrom(gate, log, n, AwardsOf(tip))
    ensures Sum(log[..n], Restores(tip)) <= Sum(log, Restores(tip))
    ensures Sum(log, FamilyOf(tip)) <=
      Max(Sum(log[..n], FamilyOf(tip)), c.total + slack) + Sum(log, Restores(tip)) - Sum(log[..n], Restores(tip))
  {
    if n == |log| {
      assert log[..n] == log;
    } else {
      var before, last := log[..|log| - 1], log[|log| - 1];
      assert before[..n] == log[..n];
      LifetimeHolds(c, gate, before, slack, n, tip);
      PrefixesDisjoint(last);
      assert IsAward(last) && last.tipId == tip ==> AwardsOf(tip)(last);
    }
  }

  /** Awards checked against the room that is left never break a cap, on any run and in any order of
      timestamps; without restores the lifetime total holds outright. */
  lemma CapsHold(c: Caps, log: seq<Credit>, tip: string, day: nat, year: int, month: int)
    requires ValidCaps(c) && Guarded(c, 0, log, 0)
    ensures Sum(log, AwardsOnDay(tip, day)) <= c.perDay
    ensures year <= 9999 ==> Sum(log, AwardsInMonth(tip, year, month)) <= c.perMonth
    ensures Sum(log, FamilyOf(tip)) <= c.total + Sum(log, Restores(tip))
  {
    assert log[..0] == [];
    DayHolds(c, 0, log, 0, 0, tip, day);
    if year <= 9999 {
      MonthHolds(c, 0, log, 0, 0, tip, year, month);
    }
    LifetimeHolds(c, 0, log, 0, 0, tip);
  }

  // ---------------------------------------------------------------- the commit handler's guard

  /** From its activation on, the commit handler accepts an award as soon as any room is left; the emitter
      never asks for more than the base amount. */
  ghost predicate Committed(c: Caps, activation: nat, log: seq<Credit>) {
    log != [] ==>
      var before, last := log[..|log| - 1], log[|log| - 1];
      && Committed(c, activation, before) && WellSigned(last) && (IsAward(last) ==> last.delta <= c.base)
      && (IsAward(last) && last.timestamp >= activation ==>
            0 < RegCreditRemaining(c, RegCreditSums(before, last.tipId, last.timestamp)))
  }

  lemma {:induction false} CommittedIsGuarded(c: Caps, activation: nat, log: seq<Credit>)
    requires ValidCaps(c) && Committed(c, activation, log)
    ensures Guarded(c, activation, log, c.base - 1)
  {
    if log != [] {
      CommittedIsGuarded(c, activation, log[..|log| - 1]);
    }
  }

  /** What the guard promises for any base: a day, a month or a lifetime never passes the larger of what it
      held before the last award stamped ahead of the activation, and its cap and all but one unit of a
      base award. Days and months that begin at or after the activation have no such award. */
  lemma CommitGuardBounds(c: Caps, activation: nat, log: seq<Credit>, n: nat, tip: string, day: nat, year: int, month: int)
    requires ValidCaps(c) && Committed(c, activation, log) && n <= |log|
    ensures CheckedFrom(activation, log, n, AwardsOnDay(tip, day)) ==>
      Sum(log, AwardsOnDay(tip, day)) <= Max(Sum(log[..n], AwardsOnDay(tip, day)), c.perDay + c.base - 1)
    ensures CheckedFrom(activation, log, n, AwardsInMonth(tip, year, month)) && year <= 9999 ==>
      Sum(log, AwardsInMonth(tip, year, month)) <= Max(Sum(log[..n], AwardsInMonth(tip, year, month)), c.perMonth + c.base - 1)
    ensures CheckedFrom(activation, log, n, AwardsOf(tip)) ==>
      Sum(log, FamilyOf(tip)) <= Max(Sum(log[..n], FamilyOf(tip)), c.total + c.base - 1)
                                 + Sum(log, Restores(tip)) - Sum(log[..n], Restores(tip))
  {
    CommittedIsGuarded(c, activation, log);
    if CheckedFrom(activation, log, n, AwardsOnDay(tip, day)) {
      DayHolds(c, activation, log, c.base - 1, n, tip, day);
    }
    if CheckedFrom(activation, log, n, AwardsInMonth(tip, year, month)) && year <= 9999 {
      MonthHolds(c, activation, log, c.base - 1, n, tip, year, month);
    }
    if CheckedFrom(activation, log, n, AwardsOf(tip)) {
      LifetimeHolds(c, activation, log, c.base - 1, n, tip);
    }
  }

  // ---------------------------------------------------------------- when the guard keeps a cap

  const TIP := "tip"

  function Award(at: nat, delta: int): Credit {
    Credit(at, TIP, AWARD_PREFIX, delta)
  }

  ghost predicate DayCapHolds(c: Caps, activation: nat, day: nat) {
    forall log, tip :: Committed(c, activation, log) ==> Sum(log, AwardsOnDay(tip, day)) <= c.perDay
  }

  ghost predicate MonthCapHolds(c: Caps, activation: nat, year: int, month: int) {
    forall log, tip :: Committed(c, activation, log) ==> Sum(log, AwardsInMonth(tip, year, month)) <= c.perMonth
  }

  lemma AwardIsAward(at: nat, delta: int)
    ensures var t := Award(at, delta);
      IsAward(t) && InFamily(t) && !IsRestore(t) && !(REVERSAL_PREFIX <= t.reason) && FamilyOf(TIP)(t) && (delta > 0 ==> WellSigned(t))
  {
    PrefixesDisjoint(Award(at, delta));
  }

  /** One more award that the guard lets pass, or never looks at. */
  lemma OneMore(c: Caps, activation: nat, log: seq<Credit>, at: nat, delta: int)
    requires Committed(c, activation, log) && 0 < delta <= c.base
    requires at >= activation ==> 0 < RegCreditRemaining(c, RegCreditSums(log, TIP, at))
    ensures Committed(c, activation, log + [Award(at, delta)])
  {
    AwardIsAward(at, delta);
    assert (log + [Award(at, delta)])[..|log|] == log;
    hide RegCreditRemaining, RegCreditSums, WellSigned, IsAward;
  }

  lemma SumSnoc(log: seq<Credit>, t: Credit, window: Credit -> bool)
    ensures Sum(log + [t], window) == Sum(log, window) + if window(t) then t.delta else 0
  {
    assert (log + [t])[..|log|] == log;
  }

  // ---------------------------------------------------------------- days

  /** n awards of one, all at one instant. */
  function Burst(at: nat, n: nat): seq<Credit> {
    if n == 0 then [] else Burst(at, n - 1) + [Award(at, 1)]
  }

  lemma {:induction false} BurstSum(at: nat, n: nat, window: Credit -> bool)
    requires window(Award(at, 1))
    ensures Sum(Burst(at, n), window) == n
  {
    if n > 0 {
      BurstSum(at, n - 1, window);
      SumSnoc(Burst(at, n - 1), Award(at, 1), window);
    }
  }

  lemma BurstRoom(at: nat, n: nat)
    ensures RegCreditSums(Burst(at, n), TIP, at) == Sums(n, n, n)
  {
    AwardIsAward(at, 1);
    BackToTheFirst(DayOf(at));
    assert MonthWindow(at) <= DayStart(at) <= at;
    hide MonthWindow, DayStart, IsAward, InFamily;
    BurstSum(at, n, FamilyOf(TIP));
    BurstSum(at, n, AwardsFrom(TIP, DayStart(at)));
    BurstSum(at, n, AwardsFrom(TIP, MonthWindow(at)));
  }

  lemma {:induction false} BurstCommitted(c: Caps, activation: nat, at: nat, n: nat)
    requires ValidCaps(c) && (at >= activation ==> n <= c.perDay <= c.perMonth && c.perDay <= c.total)
    ensures Committed(c, activation, Burst(at, n))
  {
    if n > 0 {
      hide Committed, RegCreditSums, Burst;
      BurstCommitted(c, activation, at, n - 1);
      BurstRoom(at, n - 1);
      OneMore(c, activation, Burst(at, n - 1), at, 1);
      BurstNext(at, n - 1);
    }
  }

  lemma BurstNext(at: nat, n: nat)
    ensures Burst(at, n + 1) == Burst(at, n) + [Award(at, 1)]
  {}

  /** The guard keeps a day's cap on every run exactly if the base award is one unit and the day begins at
      or after the activation. */
  lemma DayCapIff(c: Caps, activation: nat, day: nat)
    requires ValidCaps(c) && 1 <= c.perDay <= c.perMonth && c.perDay <= c.total
    ensures DayCapHolds(c, activation, day) <==> c.base == 1 && day * MS_PER_DAY >= activation
  {
    var at := day * MS_PER_DAY;
    if c.base == 1 && at >= activation {
      forall log, tip | Committed(c, activation, log) ensures Sum(log, AwardsOnDay(tip, day)) <= c.perDay {
        assert log[..0] == [];
        assert CheckedFrom(activation, log, 0, AwardsOnDay(tip, day));
        CommitGuardBounds(c, activation, log, 0, tip, day, 1970, 1);
      }
    } else if at < activation {
      BurstCommitted(c, activation, at, c.perDay + 1);
      OnDay(at, 1);
      BurstSum(at, c.perDay + 1, AwardsOnDay(TIP, day));
    } else {
      var n, t := c.perDay - 1, Award(at, c.base);
      BurstCommitted(c, activation, at, n);
      BurstRoom(at, n);
      OneMore(c, activation, Burst(at, n), at, c.base);
      OnDay(at, 1);
      OnDay(at, c.base);
      BurstSum(at, n, AwardsOnDay(TIP, day));
      SumSnoc(Burst(at, n), t, AwardsOnDay(TIP, day));
      assert Sum(Burst(at, n) + [t], AwardsOnDay(TIP, day)) > c.perDay;
    }
  }

  lemma OnDay(at: nat, delta: int)
    ensures AwardsOnDay(TIP, DayOf(at))(Award(at, delta))
  {
    AwardIsAward(at, delta);
  }

  // ---------------------------------------------------------------- months

  /** The day of the k-th award when each day is filled before the next begins. */
  function Slot(first: nat, perDay: int, k: nat): (day: nat)
    requires perDay > 0
    ensures day >= first
  {
    first + k / perDay
  }

  lemma MulMonotone(a: int, b: int, d: int)
    requires a <= b && d >= 0
    ensures a * d <= b * d
  {}

  lemma SlotAtLeast(first: nat, perDay: int, k: nat, j: nat)
    requires perDay > 0
    ensures Slot(first, perDay, k) >= first + j <==> k >= j * perDay
  {
    var q := k / perDay;
    assert q * perDay <= k < (q + 1) * perDay;
    MulMonotone(Min(j, q), q, perDay);
    MulMonotone(q + 1, Max(q + 1, j), perDay);
  }

  function Spread(first: nat, perDay: int, n: nat): seq<Credit>
    requires perDay > 0
  {
    if n == 0 then [] else Spread(first, perDay, n - 1) + [Award(Slot(first, perDay, n - 1) * MS_PER_DAY, 1)]
  }

  lemma InWindow(at: nat, start: int)
    ensures AwardsFrom(TIP, start)(Award(at, 1)) <==> at >= start
  {
    AwardIsAward(at, 1);
  }

  /** Of those awards, the ones from day first + j on. */
  lemma {:induction false} SpreadFrom(first: nat, perDay: int, n: nat, j: nat)
    requires perDay > 0
    ensures Sum(Spread(first, perDay, n), AwardsFrom(TIP, (first + j) * MS_PER_DAY)) == Max(0, n - j * perDay)
  {
    if n == 0 {
      MulMonotone(0, j, perDay);
    } else {
      var at := Slot(first, perDay, n - 1) * MS_PER_DAY;
      SpreadFrom(first, perDay, n - 1, j);
      InWindowIff(first, perDay, n - 1, j);
      hide Slot, AwardsFrom, Award, Sum, MS_PER_DAY;
      SumSnoc(Spread(first, perDay, n - 1), Award(at, 1), AwardsFrom(TIP, (first + j) * MS_PER_DAY));
      AwardDelta(at, 1);
      StepUp(n, j * perDay);
    }
  }

  lemma StepUp(n: int, x: int)
    ensures Max(0, n - x) == Max(0, n - 1 - x) + if n - 1 >= x then 1 else 0
  {}

  lemma InWindowIff(first: nat, perDay: int, k: nat, j: nat)
    requires perDay > 0
    ensures AwardsFrom(TIP, (first + j) * MS_PER_DAY)(Award(Slot(first, perDay, k) * MS_PER_DAY, 1)) <==> k >= j * perDay
  {
    SlotAtLeast(first, perDay, k, j);
    var day := Slot(first, perDay, k);
    hide Slot;
    InWindow(day * MS_PER_DAY, (first + j) * MS_PER_DAY);
  }

  lemma AwardDelta(at: nat, delta: int)
    ensures Award(at, delta).delta == delta
  {}

  lemma {:induction false} SpreadSum(first: nat, perDay: int, n: nat, window: Credit -> bool)
    requires perDay > 0 && forall k: nat {:trigger Slot(first, perDay, k)} | k < n :: window(Award(Slot(first, perDay, k) * MS_PER_DAY, 1))
    ensures Sum(Spread(first, perDay, n), window) == n
  {
    if n > 0 {
      var at := Slot(first, perDay, n - 1) * MS_PER_DAY;
      SpreadSum(first, perDay, n - 1, window);
      SumSnoc(Spread(first, perDay, n - 1), Award(at, 1), window);
    }
  }

  /** The first days of a month are its own, and its window opens on the first of them. */
  lemma MonthDay(year: int, month: int, j: nat, delta: int)
    requires IsCivil(Civil(year, month, 1)) && year <= 9999 && j < 28
    ensures var first := DayNumber(Civil(year, month, 1));
      && first >= 0 && CivilOf(first + j) == Civil(year, month, 1 + j)
      && MonthWindow((first + j) * MS_PER_DAY) == first * MS_PER_DAY
      && AwardsInMonth(TIP, year, month)(Award((first + j) * MS_PER_DAY, delta))
  {
    var first := DayNumber(Civil(year, month, 1));
    MonthDate(year, month, j);
    StartOfDay(first + j);
    AwardIsAward((first + j) * MS_PER_DAY, delta);
    hide CivilOf, DayNumber, DayOf, DayStart, IsAward;
    assert (first + j) * MS_PER_DAY - j * MS_PER_DAY == first * MS_PER_DAY;
  }

  lemma MonthDate(year: int, month: int, j: nat)
    requires IsCivil(Civil(year, month, 1)) && j < 28
    ensures var first := DayNumber(Civil(year, month, 1));
      first >= 0 && CivilOf(first + j) == Civil(year, month, 1 + j)
  {
    hide CivilOf;
    DatesRoundTrip(0, Civil(year, month, 1));
    DatesRoundTrip(0, Civil(year, month, 1 + j));
  }

  lemma SlotInMonth(first: nat, perDay: int, k: nat)
    requires perDay > 0 && k < 28 * perDay
    ensures first <= Slot(first, perDay, k) < first + 28
  {
    SlotAtLeast(first, perDay, k, 28);
  }

  /** The room before the k-th of those awards. */
  lemma SpreadRoom(c: Caps, year: int, month: int, k: nat)
    requires ValidCaps(c) && IsCivil(Civil(year, month, 1)) && year <= 9999
    requires c.perDay >= 1 && k < c.perMonth <= c.total && c.perMonth <= 28 * c.perDay
    ensures var first := DayNumber(Civil(year, month, 1));
      first >= 0 && 0 < RegCreditRemaining(c, RegCreditSums(Spread(first, c.perDay, k), TIP, Slot(first, c.perDay, k) * MS_PER_DAY))
  {
    hide MonthWindow, CivilOf, AwardsInMonth, RegCreditRemaining, RegCreditSums, Slot, MS_PER_DAY;
    var first := DayNumber(Civil(year, month, 1));
    MonthDay(year, month, 0, 1);
    SlotInMonth(first, c.perDay, k);
    MonthDay(year, month, Slot(first, c.perDay, k) - first, 1);
    SpreadSums(first, c.perDay, k);
    RoomLeft(c, RegCreditSums(Spread(first, c.perDay, k), TIP, Slot(first, c.perDay, k) * MS_PER_DAY));
  }

  lemma RoomLeft(c: Caps, s: Sums)
    requires c.base > 0 && s.netTotal < c.total && s.dailySum < c.perDay && s.monthlySum < c.perMonth
    ensures RegCreditRemaining(c, s) > 0
  {}

  lemma SpreadSums(first: nat, perDay: int, k: nat)
    requires perDay > 0
    ensures var at := Slot(first, perDay, k) * MS_PER_DAY;
      var s := RegCreditSums(Spread(first, perDay, k), TIP, at);
      s.netTotal == k && s.dailySum < perDay && (MonthWindow(at) == first * MS_PER_DAY ==> s.monthlySum == k)
  {
    hide Slot, MonthWindow, Sum, FamilyOf, AwardsFrom, Spread, DayStart, MS_PER_DAY, DayOf;
    var j := Slot(first, perDay, k) - first;
    SpreadToday(first, perDay, k, j);
    SpreadAll(first, perDay, k);
    SpreadNet(first, perDay, k);
    StartOfDay(first + j);
  }

  lemma StartOfDay(day: nat)
    ensures DayOf(day * MS_PER_DAY) == day && DayStart(day * MS_PER_DAY) == day * MS_PER_DAY
  {}

  lemma SpreadToday(first: nat, perDay: int, k: nat, j: nat)
    requires perDay > 0 && first + j == Slot(first, perDay, k)
    ensures Sum(Spread(first, perDay, k), AwardsFrom(TIP, (first + j) * MS_PER_DAY)) < perDay
  {
    SlotAtLeast(first, perDay, k, j + 1);
    hide Slot, Sum, Spread, AwardsFrom, MS_PER_DAY;
    SpreadFrom(first, perDay, k, j);
    assert (j + 1) * perDay == j * perDay + perDay;
  }

  lemma SpreadAll(first: nat, perDay: int, k: nat)
    requires perDay > 0
    ensures Sum(Spread(first, perDay, k), AwardsFrom(TIP, first * MS_PER_DAY)) == k
  {
    hide Sum, Spread, AwardsFrom, MS_PER_DAY;
    SpreadFrom(first, perDay, k, 0);
    assert first + 0 == first && 0 * perDay == 0;
  }

  lemma {:induction false} SpreadNet(first: nat, perDay: int, n: nat)
    requires perDay > 0
    ensures Sum(Spread(first, perDay, n), FamilyOf(TIP)) == n
  {
    if n > 0 {
      var at := Slot(first, perDay, n - 1) * MS_PER_DAY;
      SpreadNet(first, perDay, n - 1);
      AwardIsAward(at, 1);
      SumSnoc(Spread(first, perDay, n - 1), Award(at, 1), FamilyOf(TIP));
    }
  }

  lemma {:induction false} SpreadCommitted(c: Caps, activation: nat, year: int, month: int, n: nat)
    requires ValidCaps(c) && IsCivil(Civil(year, month, 1)) && year <= 9999
    requires c.perDay >= 1 && n <= c.perMonth <= c.total && c.perMonth <= 28 * c.perDay
    ensures var first := DayNumber(Civil(year, month, 1)); first >= 0 && Committed(c, activation, Spread(first, c.perDay, n))
  {
    MonthDay(year, month, 0, 1);
    var first := DayNumber(Civil(year, month, 1));
    if n > 0 {
      SpreadCommitted(c, activation, year, month, n - 1);
      SpreadRoom(c, year, month, n - 1);
      hide Committed, RegCreditRemaining, RegCreditSums, DayNumber, CivilOf, Slot, Spread;
      OneMore(c, activation, Spread(first, c.perDay, n - 1), Slot(first, c.perDay, n - 1) * MS_PER_DAY, 1);
      SpreadNext(first, c.perDay, n - 1);
    }
  }

  lemma SpreadNext(first: nat, perDay: int, n: nat)
    requires perDay > 0
    ensures Spread(first, perDay, n + 1) == Spread(first, perDay, n) + [Award(Slot(first, perDay, n) * MS_PER_DAY, 1)]
  {}

  lemma SpreadInMonth(year: int, month: int, perDay: int, n: nat)
    requires IsCivil(Civil(year, month, 1)) && perDay > 0 && n <= 28 * perDay
    ensures var first := DayNumber(Civil(year, month, 1));
      first >= 0 && Sum(Spread(first, perDay, n), AwardsInMonth(TIP, year, month)) == n
  {
    MonthDate(year, month, 0);
    var first, window := DayNumber(Civil(year, month, 1)), AwardsInMonth(TIP, year, month);
    hide DayNumber, CivilOf, AwardsInMonth, Slot;
    forall k: nat {:trigger Slot(first, perDay, k)} | k < n ensures window(Award(Slot(first, perDay, k) * MS_PER_DAY, 1)) {
      SlotInMonth(first, perDay, k);
      InOwnMonth(year, month, Slot(first, perDay, k) - first);
    }
    SpreadSum(first, perDay, n, window);
  }

  lemma InOwnMonth(year: int, month: int, j: nat)
    requires IsCivil(Civil(year, month, 1)) && j < 28
    ensures var first := DayNumber(Civil(year, month, 1));
      first >= 0 && AwardsInMonth(TIP, year, month)(Award((first + j) * MS_PER_DAY, 1))
  {
    MonthDate(year, month, j);
    var day := DayNumber(Civil(year, month, 1)) + j;
    StartOfDay(day);
    AwardIsAward(day * MS_PER_DAY, 1);
    hide CivilOf, DayNumber, DayOf, IsAward;
  }

  /** The same for a month, up to the year 9999: its cap holds on every run exactly if the base award is one
      unit and the month begins at or after the activation. */
  lemma MonthCapIff(c: Caps, activation: nat, year: int, month: int)
    requires ValidCaps(c) && IsCivil(Civil(year, month, 1)) && year <= 9999
    requires 1 <= c.perMonth <= c.total && c.perMonth <= 28 * c.perDay
    ensures MonthCapHolds(c, activation, year, month)
      <==> c.base == 1 && DayNumber(Civil(year, month, 1)) * MS_PER_DAY >= activation
  {
    MonthDay(year, month, 0, 1);
    var at := DayNumber(Civil(year, month, 1)) * MS_PER_DAY;
    hide DayNumber, CivilOf, Committed, Sum;
    if c.base == 1 && at >= activation {
      MonthKept(c, activation, year, month);
    } else if at < activation {
      BurstCommitted(c, activation, at, c.perMonth + 1);
      BurstSum(at, c.perMonth + 1, AwardsInMonth(TIP, year, month));
      assert Sum(Burst(at, c.perMonth + 1), AwardsInMonth(TIP, year, month)) > c.perMonth;
    } else {
      var log := MonthOvershoots(c, activation, year, month);
    }
  }

  lemma MonthKept(c: Caps, activation: nat, year: int, month: int)
    requires ValidCaps(c) && IsCivil(Civil(year, month, 1)) && year <= 9999 && c.base == 1
    requires DayNumber(Civil(year, month, 1)) * MS_PER_DAY >= activation
    ensures MonthCapHolds(c, activation, year, month)
  {
    forall log, tip | Committed(c, activation, log) ensures Sum(log, AwardsInMonth(tip, year, month)) <= c.perMonth {
      InMonthLater(activation, log, tip, year, month);
      assert log[..0] == [];
      hide Committed, CheckedFrom, DayNumber, CivilOf;
      CommitGuardBounds(c, activation, log, 0, tip, 0, year, month);
    }
  }

  lemma MonthOvershoots(c: Caps, activation: nat, year: int, month: int) returns (log: seq<Credit>)
    requires ValidCaps(c) && IsCivil(Civil(year, month, 1)) && year <= 9999 && c.base > 1
    requires 1 <= c.perMonth <= c.total && c.perMonth <= 28 * c.perDay
    ensures Committed(c, activation, log) && Sum(log, AwardsInMonth(TIP, year, month)) > c.perMonth
  {
    MonthDay(year, month, 0, 1);
    var first, n, window := DayNumber(Civil(year, month, 1)), c.perMonth - 1, AwardsInMonth(TIP, year, month);
    SlotInMonth(first, c.perDay, n);
    MonthDay(year, month, Slot(first, c.perDay, n) - first, c.base);
    var last := Slot(first, c.perDay, n) * MS_PER_DAY;
    hide DayNumber, CivilOf, Committed, Sum, Slot, AwardsInMonth, RegCreditRemaining, RegCreditSums, Spread;
    SpreadCommitted(c, activation, year, month, n);
    SpreadRoom(c, year, month, n);
    OneMore(c, activation, Spread(first, c.perDay, n), last, c.base);
    SpreadInMonth(year, month, c.perDay, n);
    SumSnoc(Spread(first, c.perDay, n), Award(last, c.base), window);
    AwardDelta(last, c.base);
    log := Spread(first, c.perDay, n) + [Award(last, c.base)];
  }

  /** Everything in a month is stamped from its first day on. */
  lemma InMonthLater(activation: nat, log: seq<Credit>, tip: string, year: int, month: int)
    requires IsCivil(Civil(year, month, 1)) && DayNumber(Civil(year, month, 1)) * MS_PER_DAY >= activation
    ensures CheckedFrom(activation, log, 0, AwardsInMonth(tip, year, month))
  {
    forall i | 0 <= i < |log| && AwardsInMonth(tip, year, month)(log[i]) ensures log[i].timestamp >= activation {
      var day := DayOf(log[i].timestamp);
      BackToTheFirst(day);
      assert CivilOf(day).year == year && CivilOf(day).month == month;
      assert log[i].timestamp >= day * MS_PER_DAY;
    }
  }

  // ---------------------------------------------------------------- after the year 9999

  /** No run of awards checked against the room that is left passes the cap of this month. */
  ghost predicate MonthKeptByRoom(c: Caps, year: int, month: int) {
    forall log, tip :: Guarded(c, 0, log, 0) ==> Sum(log, AwardsInMonth(tip, year, month)) <= c.perMonth
  }

  /** Such awards keep a month's cap exactly up to the year 9999: later the window opens too late in the
      month. (Caps that leave no room to overshoot within sixteen days are passed over.) */
  lemma MonthKeptIff(c: Caps, year: int, month: int)
    requires ValidCaps(c) && IsCivil(Civil(year, month, 1)) && 1 <= c.perMonth < c.total && c.perMonth <= 16 * c.perDay
    ensures MonthKeptByRoom(c, year, month) <==> year <= 9999
  {
    if year <= 9999 {
      forall log, tip | Guarded(c, 0, log, 0) ensures Sum(log, AwardsInMonth(tip, year, month)) <= c.perMonth {
        CapsHold(c, log, tip, 0, year, month);
      }
    } else {
      var log := LateMonthOvershoots(c, year, month);
    }
  }

  lemma {:induction false} SpreadAtMost(first: nat, perDay: int, n: nat, window: Credit -> bool)
    requires perDay > 0
    ensures Sum(Spread(first, perDay, n), window) <= n
  {
    if n > 0 {
      SpreadAtMost(first, perDay, n - 1, window);
      SumSnoc(Spread(first, perDay, n - 1), Award(Slot(first, perDay, n - 1) * MS_PER_DAY, 1), window);
    }
  }

  lemma OneMoreGuarded(c: Caps, log: seq<Credit>, at: nat)
    requires Guarded(c, 0, log, 0) && 0 < RegCreditRemaining(c, RegCreditSums(log, TIP, at))
    ensures Guarded(c, 0, log + [Award(at, 1)], 0)
  {
    AwardIsAward(at, 1);
    assert (log + [Award(at, 1)])[..|log|] == log;
    hide RegCreditRemaining, RegCreditSums, WellSigned, IsAward;
  }

  /** Whatever month window is used, there is room before the cap's last unit. */
  lemma RoomWherever(c: Caps, first: nat, k: nat)
    requires ValidCaps(c) && c.perDay >= 1 && k < c.perMonth <= c.total
    ensures 0 < RegCreditRemaining(c, RegCreditSums(Spread(first, c.perDay, k), TIP, Slot(first, c.perDay, k) * MS_PER_DAY))
  {
    var at := Slot(first, c.perDay, k) * MS_PER_DAY;
    SpreadSums(first, c.perDay, k);
    SpreadAtMost(first, c.perDay, k, AwardsFrom(TIP, MonthWindow(at)));
    hide RegCreditRemaining, Slot, Spread, DayStart, MonthWindow, MS_PER_DAY, Sum;
    RoomLeft(c, RegCreditSums(Spread(first, c.perDay, k), TIP, at));
  }

  lemma SpreadNone(c: Caps, first: nat)
    requires c.perDay > 0
    ensures Guarded(c, 0, Spread(first, c.perDay, 0), 0)
  {}

  lemma {:induction false} SpreadGuarded(c: Caps, first: nat, n: nat)
    requires ValidCaps(c) && c.perDay >= 1 && n <= c.perMonth <= c.total
    ensures Guarded(c, 0, Spread(first, c.perDay, n), 0)
  {
    hide *;
    if n == 0 {
      SpreadNone(c, first);
    } else {
      SpreadGuarded(c, first, n - 1);
      RoomWherever(c, first, n - 1);
      OneMoreGuarded(c, Spread(first, c.perDay, n - 1), Slot(first, c.perDay, n - 1) * MS_PER_DAY);
      SpreadNext(first, c.perDay, n - 1);
    }
  }

  /** On the 28th of a late month the window opens after the 16th. */
  lemma LateWindow(year: int, month: int)
    requires IsCivil(Civil(year, month, 1)) && year > 9999
    ensures var first := DayNumber(Civil(year, month, 1));
      first >= 0 && MonthWindow((first + 27) * MS_PER_DAY) == (first + 28 - month) * MS_PER_DAY
  {
    MonthDate(year, month, 27);
    var day := DayNumber(Civil(year, month, 1)) + 27;
    StartOfDay(day);
    hide CivilOf, DayNumber, DayOf, DayStart;
    assert IsoField(day * MS_PER_DAY) == month;
  }

  /** There the whole cap is out of sight once it was awarded in the first sixteen days. */
  lemma LateRoom(c: Caps, year: int, month: int)
    requires ValidCaps(c) && IsCivil(Civil(year, month, 1)) && year > 9999
    requires 1 <= c.perMonth < c.total && c.perMonth <= 16 * c.perDay
    ensures var first := DayNumber(Civil(year, month, 1));
      first >= 0 && 0 < RegCreditRemaining(c, RegCreditSums(Spread(first, c.perDay, c.perMonth), TIP, (first + 27) * MS_PER_DAY))
  {
    LateWindow(year, month);
    var first := DayNumber(Civil(year, month, 1));
    StartOfDay(first + 27);
    hide DayNumber, Sum, MonthWindow, DayStart, MS_PER_DAY, Spread, RegCreditRemaining;
    MulMonotone(16, 28 - month, c.perDay);
    MulMonotone(16, 27, c.perDay);
    SpreadFrom(first, c.perDay, c.perMonth, 28 - month);
    SpreadFrom(first, c.perDay, c.perMonth, 27);
    SpreadNet(first, c.perDay, c.perMonth);
    RoomLeft(c, RegCreditSums(Spread(first, c.perDay, c.perMonth), TIP, (first + 27) * MS_PER_DAY));
  }

  lemma LateMonthOvershoots(c: Caps, year: int, month: int) returns (log: seq<Credit>)
    requires ValidCaps(c) && IsCivil(Civil(year, month, 1)) && year > 9999
    requires 1 <= c.perMonth < c.total && c.perMonth <= 16 * c.perDay
    ensures Guarded(c, 0, log, 0) && Sum(log, AwardsInMonth(TIP, year, month)) > c.perMonth
  {
    MonthDate(year, month, 27);
    var first, n, window := DayNumber(Civil(year, month, 1)), c.perMonth, AwardsInMonth(TIP, year, month);
    var at := (first + 27) * MS_PER_DAY;
    hide DayNumber, CivilOf, Sum, MS_PER_DAY, Guarded, Spread, RegCreditRemaining, RegCreditSums, IsAward, AwardsInMonth;
    InOwnMonth(year, month, 27);
    LateRoom(c, year, month);
    SpreadGuarded(c, first, n);
    OneMoreGuarded(c, Spread(first, c.perDay, n), at);
    SpreadInMonth(year, month, c.perDay, n);
    SumSnoc(Spread(first, c.perDay, n), Award(at, 1), window);
    AwardDelta(at, 1);
    log := Spread(first, c.perDay, n) + [Award(at, 1)];
  }

  // ---------------------------------------------------------------- restores

  /** Nothing was restored that had not been reversed, at any time. */
  ghost predicate RestoresCovered(log: seq<Credit>, tip: string) {
    && (log != [] ==> RestoresCovered(log[..|log| - 1], tip))
    && Sum(log, Restores(tip)) <= -Sum(log, Reversals(tip))
  }

  const MONTH_AND_A_DAY: nat := 32 * MS_PER_DAY

  /** One award, its reversal, and then n awards, each in a month of its own. */
  function Refilled(n: nat): seq<Credit> {
    if n == 0 then [Award(0, 1), Credit(0, TIP, REVERSAL_PREFIX, -1)] else Refilled(n - 1) + [Award(n * MONTH_AND_A_DAY, 1)]
  }

  lemma {:induction false} NoneSince(log: seq<Credit>, tip: string, start: int)
    requires forall t | t in log :: t.timestamp < start
    ensures Sum(log, AwardsFrom(tip, start)) == 0
  {
    if log != [] {
      assert log[|log| - 1] in log;
      NoneSince(log[..|log| - 1], tip, start);
    }
  }

  lemma {:induction false} RefilledBefore(n: nat)
    ensures forall t | t in Refilled(n) :: t.timestamp <= n * MONTH_AND_A_DAY
  {
    if n > 0 {
      RefilledBefore(n - 1);
    }
  }

  lemma ReversalIsNone()
    ensures var t := Credit(0, TIP, REVERSAL_PREFIX, -1);
      InFamily(t) && !IsAward(t) && !IsRestore(t) && WellSigned(t) && Reversals(TIP)(t)
  {
    PrefixesDisjoint(Credit(0, TIP, REVERSAL_PREFIX, -1));
  }

  lemma RestoreIsRestore(at: nat)
    ensures var t := Credit(at, TIP, RESTORE_PREFIX, 1);
      InFamily(t) && IsRestore(t) && !IsAward(t) && WellSigned(t) && !Reversals(TIP)(t)
  {
    PrefixesDisjoint(Credit(at, TIP, RESTORE_PREFIX, 1));
  }

  lemma AwardSums(log: seq<Credit>, at: nat)
    requires RestoresCovered(log, TIP)
    ensures var next := log + [Award(at, 1)];
      && Sum(next, FamilyOf(TIP)) == Sum(log, FamilyOf(TIP)) + 1
      && Sum(next, Restores(TIP)) == Sum(log, Restores(TIP)) && Sum(next, Reversals(TIP)) == Sum(log, Reversals(TIP))
      && RestoresCovered(next, TIP)
  {
    AwardIsAward(at, 1);
    hide Sum, IsAward, InFamily, IsRestore;
    SumSnoc(log, Award(at, 1), FamilyOf(TIP));
    SumSnoc(log, Award(at, 1), Restores(TIP));
    SumSnoc(log, Award(at, 1), Reversals(TIP));
    assert (log + [Award(at, 1)])[..|log|] == log;
  }

  lemma {:induction false} RefilledSums(n: nat)
    ensures Sum(Refilled(n), FamilyOf(TIP)) == n && Sum(Refilled(n), Restores(TIP)) == 0 && Sum(Refilled(n), Reversals(TIP)) == -1
    ensures RestoresCovered(Refilled(n), TIP)
  {
    hide *;
    if n == 0 {
      RefilledStart();
    } else {
      RefilledSums(n - 1);
      AwardSums(Refilled(n - 1), n * MONTH_AND_A_DAY);
      RefilledNext(n);
    }
  }

  lemma SumTwo(a: Credit, b: Credit, which: Credit -> bool)
    ensures Sum([a], which) == if which(a) then a.delta else 0
    ensures Sum([a, b], which) == Sum([a], which) + if which(b) then b.delta else 0
  {
    assert [a][..0] == [] && [a, b][..1] == [a];
  }

  lemma RefilledStart()
    ensures var log := Refilled(0);
      && Sum(log, FamilyOf(TIP)) == 0 && Sum(log, Restores(TIP)) == 0 && Sum(log, Reversals(TIP)) == -1
      && RestoresCovered(log, TIP)
  {
    var a, r := Award(0, 1), Credit(0, TIP, REVERSAL_PREFIX, -1);
    AwardIsAward(0, 1);
    ReversalIsNone();
    hide IsAward, InFamily, IsRestore, Sum, REVERSAL_PREFIX;
    SumTwo(a, r, FamilyOf(TIP));
    SumTwo(a, r, Restores(TIP));
    SumTwo(a, r, Reversals(TIP));
    CoveredTwo(a, r);
  }

  lemma CoveredTwo(a: Credit, b: Credit)
    requires Sum([a], Restores(TIP)) <= -Sum([a], Reversals(TIP)) && Sum([a, b], Restores(TIP)) <= -Sum([a, b], Reversals(TIP))
    ensures RestoresCovered([a, b], TIP)
  {
    hide Restores, Reversals;
    assert [a][..0] == [] && [a, b][..1] == [a];
    assert RestoresCovered([], TIP) && RestoresCovered([a], TIP);
  }

  lemma RefilledNext(n: nat)
    requires n > 0
    ensures Refilled(n) == Refilled(n - 1) + [Award(n * MONTH_AND_A_DAY, 1)]
  {}

  lemma {:induction false} RefilledGuarded(c: Caps, n: nat)
    requires ValidCaps(c) && c.perDay >= 1 && c.perMonth >= 1 && 1 <= c.total && n <= c.total
    ensures Guarded(c, 0, Refilled(n), 0)
  {
    if n == 0 {
      StartGuarded(c);
    } else {
      RefilledNext(n);
      hide *;
      RefilledGuarded(c, n - 1);
      RefilledRoom(c, n);
      OneMoreGuarded(c, Refilled(n - 1), n * MONTH_AND_A_DAY);
    }
  }

  lemma RefilledRoom(c: Caps, n: nat)
    requires ValidCaps(c) && c.perDay >= 1 && c.perMonth >= 1 && 1 <= n <= c.total
    ensures RegCreditRemaining(c, RegCreditSums(Refilled(n - 1), TIP, n * MONTH_AND_A_DAY)) > 0
  {
    hide MonthWindow, DayStart, Refilled, Sum, RegCreditRemaining;
    RefilledSums(n - 1);
    RefilledBefore(n - 1);
    WindowsAreFresh(n);
    NoneSince(Refilled(n - 1), TIP, DayStart(n * MONTH_AND_A_DAY));
    NoneSince(Refilled(n - 1), TIP, MonthWindow(n * MONTH_AND_A_DAY));
    RoomLeft(c, RegCreditSums(Refilled(n - 1), TIP, n * MONTH_AND_A_DAY));
  }

  /** No window reaches back to the award before. */
  lemma WindowsAreFresh(n: nat)
    requires n >= 1
    ensures DayStart(n * MONTH_AND_A_DAY) > (n - 1) * MONTH_AND_A_DAY && MonthWindow(n * MONTH_AND_A_DAY) > (n - 1) * MONTH_AND_A_DAY
  {
    var day := n * 32;
    assert n * MONTH_AND_A_DAY == day * MS_PER_DAY && (n - 1) * MONTH_AND_A_DAY == (day - 32) * MS_PER_DAY;
    BackToTheFirst(day);
    StartOfDay(day);
    FieldAtMost(day * MS_PER_DAY);
    hide IsoField, DayStart, DayOf, MONTH_AND_A_DAY, CivilOf;
  }

  lemma FieldAtMost(at: nat)
    ensures 1 <= IsoField(at) <= 31
  {
    BackToTheFirst(DayOf(at));
    hide CivilOf, DayOf;
  }

  lemma StartGuarded(c: Caps)
    requires ValidCaps(c) && c.perDay >= 1 && c.perMonth >= 1 && c.total >= 1
    ensures Guarded(c, 0, Refilled(0), 0)
  {
    var none: seq<Credit> := [];
    var a, r := Award(0, 1), Credit(0, TIP, REVERSAL_PREFIX, -1);
    AwardIsAward(0, 1);
    ReversalIsNone();
    assert RegCreditSums(none, TIP, 0) == Sums(0, 0, 0);
    hide IsAward, WellSigned, RegCreditRemaining, RegCreditSums;
    RoomLeft(c, RegCreditSums(none, TIP, 0));
    assert [a][..0] == none && [a, r][..1] == [a];
    assert Guarded(c, 0, none, 0) && Guarded(c, 0, [a], 0);
  }

  /** Restores are not rate-capped, so the allowance for them in CapsHold is really used, whatever the caps
      are: award, reverse, fill up to the total, and restore what was reversed. */
  lemma RestoreCanPassTotal(c: Caps) returns (log: seq<Credit>)
    requires ValidCaps(c) && c.perDay >= 1 && c.perMonth >= 1 && c.total >= 1
    ensures Guarded(c, 0, log, 0) && RestoresCovered(log, TIP)
    ensures Sum(log, FamilyOf(TIP)) == c.total + 1
  {
    var at := c.total * MONTH_AND_A_DAY;
    var before, t := Refilled(c.total), Credit(at, TIP, RESTORE_PREFIX, 1);
    RefilledGuarded(c, c.total);
    RefilledSums(c.total);
    RestoreIsRestore(at);
    log := before + [t];
    assert log[..|log| - 1] == before;
    SumSnoc(before, t, FamilyOf(TIP));
    SumSnoc(before, t, Restores(TIP));
    SumSnoc(before, t, Reversals(TIP));
  }
}
