/** The proleptic Gregorian calendar in UTC, as Date.prototype.toISOString reads it, from 1970 on. */
module Calendar {
  predicate IsLeap(year: int) {
    year % 4 == 0 && (year % 100 != 0 || year % 400 == 0)
  }

  function DaysInYear(year: int): (n: nat)
    ensures n >= 365
  {
    if IsLeap(year) then 366 else 365
  }

  function DaysInMonth(year: int, month: int): (n: nat)
    requires 1 <= month <= 12
    ensures 28 <= n <= 31
  {
    if month == 2 then (if IsLeap(year) then 29 else 28)
    else if month == 4 || month == 6 || month == 9 || month == 11 then 30
    else 31
  }

  datatype Civil = Civil(year: int, month: int, date: int)

  predicate IsCivil(c: Civil) {
    1970 <= c.year && 1 <= c.month <= 12 && 1 <= c.date <= DaysInMonth(c.year, c.month)
  }

  /** Days before 1 January of a year, counted from 1 January 1970. */
  function YearStart(year: int): nat
    requires year >= 1970
  {
    if year == 1970 then 0 else YearStart(year - 1) + DaysInYear(year - 1)
  }

  /** Days before the first of a month, counted from 1 January of its year. */
  function MonthStart(year: int, month: int): nat
    requires 1 <= month <= 12
  {
    if month == 1 then 0 else MonthStart(year, month - 1) + DaysInMonth(year, month - 1)
  }

  function DayNumber(c: Civil): int
    requires IsCivil(c)
  {
    YearStart(c.year) + MonthStart(c.year, c.month) + c.date - 1
  }

  /** The date of a day: skip whole years, then whole months. */
  function CivilOf(day: nat): Civil {
    InYear(1970, day)
  }

  function InYear(year: int, rest: nat): Civil
    decreases rest
  {
    if rest < DaysInYear(year) then InMonth(year, 1, rest) else InYear(year + 1, rest - DaysInYear(year))
  }

  function InMonth(year: int, month: int, rest: nat): Civil
    requires 1 <= month <= 12
    decreases 12 - month
  {
    if month == 12 || rest < DaysInMonth(year, month) then Civil(year, month, rest + 1)
    else InMonth(year, month + 1, rest - DaysInMonth(year, month))
  }

  lemma YearLength(year: int)
    ensures MonthStart(year, 12) + DaysInMonth(year, 12) == DaysInYear(year)
  {
    assert MonthStart(year, 4) == MonthStart(year, 3) + 31 == MonthStart(year, 2) + DaysInMonth(year, 2) + 31;
    assert MonthStart(year, 8) == MonthStart(year, 7) + 31 == MonthStart(year, 6) + 61 == MonthStart(year, 5) + 92;
    assert MonthStart(year, 12) == MonthStart(year, 11) + 30 == MonthStart(year, 10) + 61 == MonthStart(year, 9) + 91;
  }

  lemma {:induction false} InMonthNumber(year: int, month: int, rest: nat)
    requires year >= 1970 && 1 <= month <= 12 && MonthStart(year, month) + rest < DaysInYear(year)
    ensures var c := InMonth(year, month, rest);
      IsCivil(c) && c.year == year && MonthStart(year, c.month) + c.date - 1 == MonthStart(year, month) + rest
    decreases 12 - month
  {
    YearLength(year);
    hide IsLeap, DaysInYear, DaysInMonth;
    if month != 12 && rest >= DaysInMonth(year, month) {
      InMonthNumber(year, month + 1, rest - DaysInMonth(year, month));
    }
  }

  lemma {:induction false} InYearNumber(year: int, rest: nat)
    requires year >= 1970
    ensures IsCivil(InYear(year, rest)) && DayNumber(InYear(year, rest)) == YearStart(year) + rest
    decreases rest
  {
    hide IsLeap, DaysInMonth, InMonth;
    if rest < DaysInYear(year) {
      InMonthNumber(year, 1, rest);
    } else {
      InYearNumber(year + 1, rest - DaysInYear(year));
    }
  }

  lemma {:induction false} YearStartMonotone(a: int, b: int)
    requires 1970 <= a < b
    ensures YearStart(a) + DaysInYear(a) <= YearStart(b)
  {
    if a + 1 < b {
      YearStartMonotone(a, b - 1);
    }
  }

  lemma {:induction false} MonthStartMonotone(year: int, a: int, b: int)
    requires 1 <= a < b <= 12
    ensures MonthStart(year, a) + DaysInMonth(year, a) <= MonthStart(year, b)
  {
    if a + 1 < b {
      MonthStartMonotone(year, a, b - 1);
    }
  }

  lemma DayNumberWithinYear(c: Civil)
    requires IsCivil(c)
    ensures YearStart(c.year) <= DayNumber(c) < YearStart(c.year) + DaysInYear(c.year)
  {
    YearLength(c.year);
    if c.month < 12 {
      MonthStartMonotone(c.year, c.month, 12);
    }
  }

  /** Different dates are different days. */
  lemma DayNumberInjective(a: Civil, b: Civil)
    requires IsCivil(a) && IsCivil(b) && DayNumber(a) == DayNumber(b)
    ensures a == b
  {
    DayNumberWithinYear(a);
    DayNumberWithinYear(b);
    if a.year < b.year {
      YearStartMonotone(a.year, b.year);
    } else if b.year < a.year {
      YearStartMonotone(b.year, a.year);
    } else if a.month < b.month {
      MonthStartMonotone(a.year, a.month, b.month);
    } else if b.month < a.month {
      MonthStartMonotone(a.year, b.month, a.month);
    }
  }

  /** Reading a date off a day and counting the days up to a date undo each other. */
  lemma DatesRoundTrip(day: nat, c: Civil)
    requires IsCivil(c)
    ensures IsCivil(CivilOf(day)) && DayNumber(CivilOf(day)) == day
    ensures DayNumber(c) >= 0 && CivilOf(DayNumber(c)) == c
  {
    InYearNumber(1970, day);
    DayNumberWithinYear(c);
    InYearNumber(1970, DayNumber(c));
    DayNumberInjective(CivilOf(DayNumber(c)), c);
  }

  /** Going back by the day of the month, less one, lands on the first of the same month. */
  lemma BackToTheFirst(day: nat)
    ensures var c := CivilOf(day);
      IsCivil(c) && day - (c.date - 1) == DayNumber(Civil(c.year, c.month, 1)) >= 0
      && CivilOf(day - (c.date - 1)) == Civil(c.year, c.month, 1)
  {
    var c := CivilOf(day);
    DatesRoundTrip(day, Civil(1970, 1, 1));
    DatesRoundTrip(0, Civil(c.year, c.month, 1));
  }

  function Fours(year: int): int { (year - 1969) / 4 }
  function Hundreds(year: int): int { (year - 1901) / 100 }
  function FourHundreds(year: int): int { (year - 1601) / 400 }

  lemma LeapTerms(y: int)
    ensures Fours(y + 1) == Fours(y) + if y % 4 == 0 then 1 else 0
    ensures Hundreds(y + 1) == Hundreds(y) + if y % 100 == 0 then 1 else 0
    ensures FourHundreds(y + 1) == FourHundreds(y) + if y % 400 == 0 then 1 else 0
    ensures y % 100 == 0 ==> y % 4 == 0
    ensures y % 400 == 0 ==> y % 100 == 0
  {
    FoursStep(y);
    HundredsStep(y);
    FourHundredsStep(y);
    hide Fours, Hundreds, FourHundreds;
    CenturiesAreFours(y);
    FourCenturiesAreCenturies(y);
  }

  lemma CenturiesAreFours(y: int)
    ensures y % 100 == 0 ==> y % 4 == 0
  {}

  lemma FourCenturiesAreCenturies(y: int)
    ensures y % 400 == 0 ==> y % 100 == 0
  {}

  lemma FoursStep(y: int)
    ensures Fours(y + 1) == Fours(y) + if y % 4 == 0 then 1 else 0
  {}

  lemma HundredsStep(y: int)
    ensures Hundreds(y + 1) == Hundreds(y) + if y % 100 == 0 then 1 else 0
  {}

  lemma FourHundredsStep(y: int)
    ensures FourHundreds(y + 1) == FourHundreds(y) + if y % 400 == 0 then 1 else 0
  {}

  /** The day on which a year starts, in the closed form the language standard gives (ECMA-262, DayFromYear). */
  lemma {:induction false} YearStartClosedForm(year: int)
    requires year >= 1970
    ensures YearStart(year) == 365 * (year - 1970) + Fours(year) - Hundreds(year) + FourHundreds(year)
  {
    if year > 1970 {
      YearStartClosedForm(year - 1);
      LeapTerms(year - 1);
      hide Fours, Hundreds, FourHundreds;
    }
  }

  /** Days before the first of a month, in closed form: 367 twelfths of a day a month, less what February lacks. */
  lemma {:induction false} MonthStartClosedForm(year: int, month: int)
    requires 1 <= month <= 12
    ensures MonthStart(year, month) == (367 * month - 362) / 12 - if month <= 2 then 0 else if IsLeap(year) then 1 else 2
  {
    if month > 1 {
      MonthStartClosedForm(year, month - 1);
    }
  }
}
