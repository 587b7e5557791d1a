/**
 * Proleptic Gregorian calendar dates, as Python's `datetime` library
 * represents them: years 1 through 9999, the usual month lengths, and
 * leap years every fourth year except centuries not divisible by 400.
 *
 * `AddDay` is `date + timedelta(days=1)`, which fails past 9999-12-31, and
 * `Ordinal` is the day number that `date.toordinal()` returns
 * (0001-01-01 is day 1). Date comparison is lexicographic on
 * (year, month, day), which `LexLeIffOrdinalLe` shows agrees with ordinals.
 */
module Calendar {
  import opened Wrappers

  datatype Date = Date(year: int, month: int, day: int)

  predicate IsLeap(y: int) {
    y % 4 == 0 && (y % 100 != 0 || y % 400 == 0)
  }

  function DaysInMonth(y: int, m: int): (n: int)
    requires 1 <= m <= 12
    ensures 28 <= n <= 31
    ensures m == 2 ==> (n == 29 <==> IsLeap(y))
  {
    if m == 2 then (if IsLeap(y) then 29 else 28)
    else if m == 4 || m == 6 || m == 9 || m == 11 then 30
    else 31
  }

  predicate Valid(d: Date) {
    1 <= d.year <= 9999 && 1 <= d.month <= 12 && 1 <= d.day <= DaysInMonth(d.year, d.month)
  }

  /** A date that `datetime` accepts. */
  type ValidDate = d: Date | Valid(d) witness Date(1, 1, 1)

  /** The largest date `datetime` can represent (`date.max`). */
  const MaxDate: ValidDate := Date(9999, 12, 31)

  /** `a <= b` as `datetime` compares dates. */
  predicate LexLe(a: Date, b: Date) {
    a.year < b.year
    || (a.year == b.year && (a.month < b.month || (a.month == b.month && a.day <= b.day)))
  }

  /** `d + timedelta(days=1)`; None where Python raises OverflowError. */
  function AddDay(d: ValidDate): Option<ValidDate> {
    if d.day < DaysInMonth(d.year, d.month) then Some(Date(d.year, d.month, d.day + 1))
    else if d.month < 12 then Some(Date(d.year, d.month + 1, 1))
    else if d.year < 9999 then Some(Date(d.year + 1, 1, 1))
    else None
  }

  function DaysInYear(y: int): int {
    if IsLeap(y) then 366 else 365
  }

  /** Days in the years before year y (y >= 1). */
  function DaysBeforeYear(y: int): int
    requires y >= 1
  {
    var z := y - 1;
    365 * z + z / 4 - z / 100 + z / 400
  }

  /** Days in the months of year y before month m. */
  function DaysBeforeMonth(y: int, m: int): int
    requires 1 <= m <= 12
  {
    var table := [0, 31, 59, 90, 120, 151, 181, 212, 243, 273, 304, 334];
    table[m - 1] + (if m > 2 && IsLeap(y) then 1 else 0)
  }

  /** `date.toordinal()`: 0001-01-01 is day 1. */
  function Ordinal(d: ValidDate): int {
    DaysBeforeYear(d.year) + DaysBeforeMonth(d.year, d.month) + d.day
  }

  // ---------------------------------------------------------------------
  // Arithmetic facts behind the ordinal.

  lemma DaysBeforeYearStep(y: int)
    requires y >= 1
    ensures DaysBeforeYear(y + 1) == DaysBeforeYear(y) + DaysInYear(y)
  {
    var z := y - 1;
    assert y / 4 - z / 4 == (if y % 4 == 0 then 1 else 0);
    assert y / 100 - z / 100 == (if y % 100 == 0 then 1 else 0);
    assert y / 400 - z / 400 == (if y % 400 == 0 then 1 else 0);
    assert y % 400 == 0 ==> y % 100 == 0;
    assert y % 100 == 0 ==> y % 4 == 0;
  }

  /** Month m ends where month m + 1 begins; the last month ends with the year. */
  lemma DaysBeforeMonthStep(y: int, m: int)
    requires 1 <= m <= 12
    ensures m < 12 ==> DaysBeforeMonth(y, m + 1) == DaysBeforeMonth(y, m) + DaysInMonth(y, m)
    ensures m == 12 ==> DaysBeforeMonth(y, m) + DaysInMonth(y, m) == DaysInYear(y)
  {
  }

  lemma DaysBeforeMonthMono(y: int, m: int, n: int)
    requires 1 <= m < n <= 12
    ensures DaysBeforeMonth(y, m) + DaysInMonth(y, m) <= DaysBeforeMonth(y, n)
  {
  }

  lemma {:induction false} DaysBeforeYearMono(y: int, z: int)
    requires 1 <= y < z
    ensures DaysBeforeYear(y) + DaysInYear(y) <= DaysBeforeYear(z)
    decreases z - y
  {
    DaysBeforeYearStep(y);
    if y + 1 < z {
      DaysBeforeYearMono(y + 1, z);
    }
  }

  lemma DayWithinYear(d: ValidDate)
    ensures DaysBeforeMonth(d.year, d.month) + d.day <= DaysInYear(d.year)
  {
    DaysBeforeMonthStep(d.year, 12);
    if d.month < 12 {
      DaysBeforeMonthMono(d.year, d.month, 12);
    }
  }

  // ---------------------------------------------------------------------
  // Properties of the calendar.

  /** One day later is exactly one ordinal later, and only date.max has no successor. */
  lemma AddDayOrdinal(d: ValidDate)
    ensures AddDay(d).None? <==> d == MaxDate
    ensures AddDay(d).Some? ==> Ordinal(AddDay(d).value) == Ordinal(d) + 1
    ensures AddDay(d).Some? ==> LexLe(d, AddDay(d).value) && d != AddDay(d).value
  {
    if d.day < DaysInMonth(d.year, d.month) {
    } else if d.month < 12 {
      DaysBeforeMonthStep(d.year, d.month);
    } else if d.year < 9999 {
      DaysBeforeMonthStep(d.year, 12);
      DaysBeforeYearStep(d.year);
    }
  }

  /** Lexicographically earlier dates have smaller ordinals. */
  lemma LexLtOrdinalLt(a: ValidDate, b: ValidDate)
    requires LexLe(a, b) && a != b
    ensures Ordinal(a) < Ordinal(b)
  {
    if a.year < b.year {
      DayWithinYear(a);
      DaysBeforeYearMono(a.year, b.year);
    } else if a.month < b.month {
      DaysBeforeMonthMono(a.year, a.month, b.month);
    }
  }

  /** `a <= b` on dates is `a.toordinal() <= b.toordinal()`; equal ordinals mean equal dates. */
  lemma LexLeIffOrdinalLe(a: ValidDate, b: ValidDate)
    ensures LexLe(a, b) <==> Ordinal(a) <= Ordinal(b)
    ensures Ordinal(a) == Ordinal(b) ==> a == b
  {
    if a != b {
      if LexLe(a, b) {
        LexLtOrdinalLt(a, b);
      } else {
        LexLtOrdinalLt(b, a);
      }
    }
  }
}
