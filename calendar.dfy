/** The proleptic Gregorian calendar, as PHP's checkdate and MySQL's DATE
    type use it. A DATE value is represented in the rest of the model by its
    day number: the count of days since 0001-01-01. */
module Calendar {

  predicate IsLeapYear(y: int) {
    y % 4 == 0 && (y % 100 != 0 || y % 400 == 0)
  }

  function DaysInMonth(y: int, m: int): (n: nat)
    requires 1 <= m <= 12
    ensures 28 <= n <= 31
  {
    if m == 2 then (if IsLeapYear(y) then 29 else 28)
    else if m == 4 || m == 6 || m == 9 || m == 11 then 30
    else 31
  }

  function DaysInYear(y: int): nat {
    if IsLeapYear(y) then 366 else 365
  }

  /** PHP's checkdate(month, day, year): a real calendar date whose year
      lies in 1..32767. */
  predicate CheckDate(month: int, day: int, year: int) {
    1 <= month <= 12 && 1 <= year <= 32767 && 1 <= day <= DaysInMonth(year, month)
  }

  /** Days of year `y` before the first of month `m`. */
  function DaysBeforeMonth(y: int, m: int): nat
    requires 1 <= m <= 12
  {
    if m == 1 then 0 else DaysBeforeMonth(y, m - 1) + DaysInMonth(y, m - 1)
  }

  /** Days from 0001-01-01 to the first of January of year `y`. */
  function DaysBeforeYear(y: int): int
    requires y >= 1
  {
    var p := y - 1;
    365 * p + p / 4 - p / 100 + p / 400
  }

  /** The day number of (y, m, d): days since 0001-01-01. */
  function DayNumber(y: int, m: int, d: int): int
    requires y >= 1 && 1 <= m <= 12
  {
    DaysBeforeYear(y) + DaysBeforeMonth(y, m) + d - 1
  }

  /** (y1, m1, d1) comes strictly before (y2, m2, d2) on the calendar. */
  predicate Before(y1: int, m1: int, d1: int, y2: int, m2: int, d2: int) {
    y1 < y2 || (y1 == y2 && (m1 < m2 || (m1 == m2 && d1 < d2)))
  }

  lemma {:induction false} DaysBeforeMonthGrows(y: int, m1: int, m2: int)
    requires 1 <= m1 < m2 <= 12
    ensures DaysBeforeMonth(y, m1) + DaysInMonth(y, m1) <= DaysBeforeMonth(y, m2)
    decreases m2 - m1
  {
    if m1 + 1 < m2 {
      DaysBeforeMonthGrows(y, m1 + 1, m2);
    }
  }

  lemma {:induction false} DaysBeforeMonthTotal(y: int)
    ensures DaysBeforeMonth(y, 12) + DaysInMonth(y, 12) == DaysInYear(y)
  {
    var feb := DaysInMonth(y, 2);
    assert DaysBeforeMonth(y, 1) == 0;
    assert DaysBeforeMonth(y, 2) == 31;
    assert DaysBeforeMonth(y, 3) == 31 + feb;
    assert DaysBeforeMonth(y, 4) == 62 + feb;
    assert DaysBeforeMonth(y, 5) == 92 + feb;
    assert DaysBeforeMonth(y, 6) == 123 + feb;
    assert DaysBeforeMonth(y, 7) == 153 + feb;
    assert DaysBeforeMonth(y, 8) == 184 + feb;
    assert DaysBeforeMonth(y, 9) == 215 + feb;
    assert DaysBeforeMonth(y, 10) == 245 + feb;
    assert DaysBeforeMonth(y, 11) == 276 + feb;
    assert DaysBeforeMonth(y, 12) == 306 + feb;
  }

  lemma {:induction false} DaysBeforeYearStep(y: int)
    requires y >= 1
    ensures DaysBeforeYear(y + 1) == DaysBeforeYear(y) + DaysInYear(y)
  {
    NextQuotient4(y);
    NextQuotient100(y);
    NextQuotient400(y);
    DivisibilityChain(y);
    var step := 365 + (if y % 4 == 0 then 1 else 0) - (if y % 100 == 0 then 1 else 0) + (if y % 400 == 0 then 1 else 0);
    assert DaysBeforeYear(y + 1) == DaysBeforeYear(y) + step;
  }

  lemma NextQuotient4(y: int)
    ensures y / 4 == (y - 1) / 4 + (if y % 4 == 0 then 1 else 0)
  {
  }

  lemma NextQuotient100(y: int)
    ensures y / 100 == (y - 1) / 100 + (if y % 100 == 0 then 1 else 0)
  {
  }

  lemma NextQuotient400(y: int)
    ensures y / 400 == (y - 1) / 400 + (if y % 400 == 0 then 1 else 0)
  {
  }

  lemma DivisibilityChain(y: int)
    ensures y % 400 == 0 ==> y % 100 == 0
    ensures y % 100 == 0 ==> y % 4 == 0
  {
    if y % 400 == 0 {
      var q := y / 400;
      assert y == 100 * (4 * q);
      MultipleOf100(4 * q);
    }
    if y % 100 == 0 {
      var q := y / 100;
      assert y == 4 * (25 * q);
      MultipleOf4(25 * q);
    }
  }

  lemma MultipleOf100(k: int)
    ensures (100 * k) % 100 == 0
  {
  }

  lemma MultipleOf4(k: int)
    ensures (4 * k) % 4 == 0
  {
  }

  /** Every date of year y has a day number below the first day of any later year. */
  lemma {:induction false} YearBound(y1: int, m: int, d: int, y2: int)
    requires CheckDate(m, d, y1) && y1 < y2
    ensures DayNumber(y1, m, d) < DaysBeforeYear(y2)
    decreases y2 - y1
  {
    DaysBeforeYearStep(y1);
    if m < 12 {
      DaysBeforeMonthGrows(y1, m, 12);
    }
    DaysBeforeMonthTotal(y1);
    if y1 + 1 < y2 {
      YearsGrow(y1 + 1, y2);
    }
  }

  lemma {:induction false} YearsGrow(y1: int, y2: int)
    requires 1 <= y1 <= y2
    ensures DaysBeforeYear(y1) <= DaysBeforeYear(y2)
    decreases y2 - y1
  {
    if y1 < y2 {
      DaysBeforeYearStep(y1);
      YearsGrow(y1 + 1, y2);
    }
  }

  /** Day numbers order real dates exactly as the calendar does, so comparing
      DATE values (BETWEEN, ORDER BY) is comparing their day numbers. */
  lemma {:induction false} DayNumberOrder(y1: int, m1: int, d1: int, y2: int, m2: int, d2: int)
    requires CheckDate(m1, d1, y1) && CheckDate(m2, d2, y2)
    ensures Before(y1, m1, d1, y2, m2, d2) <==> DayNumber(y1, m1, d1) < DayNumber(y2, m2, d2)
  {
    if y1 < y2 {
      YearBound(y1, m1, d1, y2);
    } else if y2 < y1 {
      YearBound(y2, m2, d2, y1);
    } else if m1 < m2 {
      DaysBeforeMonthGrows(y1, m1, m2);
    } else if m2 < m1 {
      DaysBeforeMonthGrows(y1, m2, m1);
    }
  }
}
