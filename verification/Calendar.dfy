/** mktimegm: seconds since 1970 by a closed formula, against counting the days of the Gregorian calendar. */
module Calendar {

  /** struct tm: years from 1900, months from 0. */
  datatype Tm = Tm(year: int, mon: int, mday: int, hour: int, min: int, sec: int)

  /** Division as C does it. */
  function Quot(a: int, b: int): int
    requires b > 0
  {
    if a >= 0 then a / b else -((-a) / b)
  }

  function MkTimeGm(tm: Tm): int {
    var y := tm.year + 1900 - (if tm.mon + 1 < 3 then 1 else 0);
    var m := tm.mon + 1 + (if tm.mon + 1 < 3 then 12 else 0);
    86400 * (tm.mday + Quot(153 * m - 457, 5) + 365 * y + Quot(y, 4) - Quot(y, 100) + Quot(y, 400) - 719469)
    + (3600 * tm.hour + 60 * tm.min + tm.sec)
  }

  // ---------------------------------------------------------------------------------------------
  // Counting days

  predicate Leap(y: int) {
    y % 4 == 0 && (y % 100 != 0 || y % 400 == 0)
  }

  function YearLength(y: int): nat {
    if Leap(y) then 366 else 365
  }

  function MonthLength(y: int, m: int): nat
    requires 1 <= m <= 12
  {
    if m == 2 then (if Leap(y) then 29 else 28)
    else if m == 4 || m == 6 || m == 9 || m == 11 then 30
    else 31
  }

  /** Days from 1 January 1970 to 1 January of year y. */
  function YearStart(y: int): int
    decreases if y >= 1970 then y - 1970 else 1970 - y
  {
    if y == 1970 then 0
    else if y > 1970 then YearStart(y - 1) + YearLength(y - 1)
    else YearStart(y + 1) - YearLength(y)
  }

  /** Days of year y before its month m. */
  function MonthStart(y: int, m: int): nat
    requires 1 <= m <= 12
    decreases m
  {
    if m == 1 then 0 else MonthStart(y, m - 1) + MonthLength(y, m - 1)
  }

  function DayNumber(y: int, m: int, d: int): int
    requires 1 <= m <= 12
  {
    YearStart(y) + MonthStart(y, m) + d - 1
  }

  function Seconds(tm: Tm): int
    requires 0 <= tm.mon <= 11
  {
    86400 * DayNumber(tm.year + 1900, tm.mon + 1, tm.mday) + 3600 * tm.hour + 60 * tm.min + tm.sec
  }

  // ---------------------------------------------------------------------------------------------
  // The formula counts the days

  /** Days up to the end of year y, by division that rounds down. */
  function Century(y: int): int {
    365 * y + Per4(y) - Per100(y) + Per400(y)
  }

  function Per4(y: int): int { y / 4 }
  function Per100(y: int): int { y / 100 }
  function Per400(y: int): int { y / 400 }

  lemma {:induction false} CenturyStep(y: int)
    ensures Century(y) == Century(y - 1) + YearLength(y)
  {
    hide Leap, Per4, Per100, Per400;
    Step4(y);
    Step100(y);
    Step400(y);
    LeapIs(y);
  }

  lemma {:induction false} Step4(y: int)
    ensures Per4(y) == Per4(y - 1) + if y % 4 == 0 then 1 else 0
  {
  }

  lemma {:induction false} Step100(y: int)
    ensures Per100(y) == Per100(y - 1) + if y % 100 == 0 then 1 else 0
  {
  }

  lemma {:induction false} Step400(y: int)
    ensures Per400(y) == Per400(y - 1) + if y % 400 == 0 then 1 else 0
  {
  }

  /** A leap year is one more of the fours and four hundreds than of the hundreds. */
  lemma {:induction false} LeapIs(y: int)
    ensures (if Leap(y) then 1 else 0) ==
            (if y % 4 == 0 then 1 else 0) - (if y % 100 == 0 then 1 else 0) + (if y % 400 == 0 then 1 else 0)
  {
    Divides(y);
  }

  lemma {:induction false} YearStartIs(y: int)
    ensures YearStart(y) == Century(y - 1) - 719162
    decreases if y >= 1970 then y - 1970 else 1970 - y
  {
    hide Century, YearLength;
    if y == 1970 {
      First();
    } else if y > 1970 {
      YearStartIs(y - 1);
      CenturyStep(y - 1);
    } else {
      YearStartIs(y + 1);
      CenturyStep(y);
    }
  }

  lemma {:induction false} First()
    ensures Century(1969) == 719162
  {
  }

  lemma {:induction false} MonthStartIs(y: int, m: int)
    requires 1 <= m <= 12
    ensures m >= 3 ==> MonthStart(y, m) == (153 * m - 457) / 5 + 59 + (if Leap(y) then 1 else 0)
    ensures m < 3 ==> MonthStart(y, m) == (153 * (m + 12) - 457) / 5 - 306
  {
    hide Leap;
    assert MonthStart(y, 2) == 31;
    if m > 3 {
      MonthStartIs(y, m - 1);
    }
  }

  /** The year the formula works with: January and February belong to the year before. */
  function ShiftedYear(tm: Tm): int {
    tm.year + 1900 - (if tm.mon + 1 < 3 then 1 else 0)
  }

  /** With division that rounds towards zero, the days of a year before 0 come out right only if it is a leap year. */
  lemma {:induction false} QuotCentury(y: int)
    ensures 365 * y + Quot(y, 4) - Quot(y, 100) + Quot(y, 400) == Century(y) + if y < 0 && !Leap(y) then 1 else 0
  {
    hide Leap, Quot;
    QuotDown(y, 4);
    QuotDown(y, 100);
    QuotDown(y, 400);
    LeapIs(y);
  }

  lemma {:induction false} QuotDown(y: int, n: int)
    requires n == 4 || n == 100 || n == 400
    ensures Quot(y, n) == y / n + if y < 0 && y % n != 0 then 1 else 0
  {
  }

  lemma {:induction false} Divides(y: int)
    ensures y % 400 == 0 ==> y % 100 == 0
    ensures y % 100 == 0 ==> y % 4 == 0
  {
  }

  /** For every month, day and time, and for all years: the formula is the day count exactly where rounding is harmless. */
  lemma {:induction false} MkTimeGmIff(tm: Tm)
    requires 0 <= tm.mon <= 11
    ensures MkTimeGm(tm) == Seconds(tm) <==> ShiftedYear(tm) >= 0 || Leap(ShiftedYear(tm))
    ensures ShiftedYear(tm) < 0 && !Leap(ShiftedYear(tm)) ==> MkTimeGm(tm) == Seconds(tm) + 86400
  {
    hide Century, Leap, YearStart, MonthStart;
    var y, m := tm.year + 1900, tm.mon + 1;
    YearStartIs(y);
    MonthStartIs(y, m);
    QuotCentury(ShiftedYear(tm));
    if m >= 3 {
      CenturyStep(y);
    }
  }

  /** 1 March of the year -1, the last year before 0 that is not a leap year: one day too much. */
  lemma {:induction false} DayTooMuch()
    ensures var tm := Tm(-1901, 2, 1, 0, 0, 0); MkTimeGm(tm) == Seconds(tm) + 86400
  {
    hide MkTimeGm, Seconds;
    MkTimeGmIff(Tm(-1901, 2, 1, 0, 0, 0));
  }

  /** From 1970 on, as POSIX.1-2017 counts seconds since the Epoch (Base Definitions section 4.16). */
  lemma {:induction false} MkTimeGmIsSeconds(tm: Tm)
    requires 0 <= tm.mon <= 11 && tm.year >= 70
    ensures MkTimeGm(tm) == Seconds(tm)
  {
    MkTimeGmIff(tm);
  }

  // ---------------------------------------------------------------------------------------------
  // Consecutive days

  predicate ValidDay(tm: Tm) {
    0 <= tm.mon <= 11 && 1 <= tm.mday <= MonthLength(tm.year + 1900, tm.mon + 1)
  }

  function NextDay(tm: Tm): Tm
    requires ValidDay(tm)
  {
    if tm.mday < MonthLength(tm.year + 1900, tm.mon + 1) then tm.(mday := tm.mday + 1)
    else if tm.mon < 11 then tm.(mon := tm.mon + 1, mday := 1)
    else tm.(year := tm.year + 1, mon := 0, mday := 1)
  }

  lemma {:induction false} YearIsItsMonths(y: int)
    ensures MonthStart(y, 12) + MonthLength(y, 12) == YearLength(y)
  {
    hide Leap;
    MonthStartIs(y, 12);
  }

  lemma {:induction false} YearAfter(y: int)
    ensures YearStart(y + 1) == YearStart(y) + YearLength(y)
  {
  }

  lemma {:induction false} NextDayNumber(tm: Tm)
    requires ValidDay(tm)
    ensures var n := NextDay(tm);
            ValidDay(n) && DayNumber(n.year + 1900, n.mon + 1, n.mday) == DayNumber(tm.year + 1900, tm.mon + 1, tm.mday) + 1
  {
    hide Leap, YearStart;
    var y := tm.year + 1900;
    if tm.mday == MonthLength(y, tm.mon + 1) && tm.mon == 11 {
      YearAfter(y);
      YearIsItsMonths(y);
    }
  }

  /** From every day of 1970 or later to the next one is 86400 seconds. */
  lemma {:induction false} NextDayIsADayLater(tm: Tm)
    requires ValidDay(tm) && tm.year >= 70
    ensures MkTimeGm(NextDay(tm)) == MkTimeGm(tm) + 86400
  {
    hide MkTimeGm, DayNumber;
    MkTimeGmIsSeconds(tm);
    MkTimeGmIsSeconds(NextDay(tm));
    NextDayNumber(tm);
  }
}
