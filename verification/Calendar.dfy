/** The proleptic Gregorian calendar behind Python's `date`. */
module Calendar {
  import opened Common

  const MIN_YEAR := 1
  const MAX_YEAR := 9999

  datatype Date = Date(year: int, month: int, day: int)

  predicate Leap(y: int) {
    y % 4 == 0 && (y % 100 != 0 || y % 400 == 0)
  }

  function DaysInMonth(y: int, m: int): int {
    if m == 2 then (if Leap(y) then 29 else 28)
    else if m == 4 || m == 6 || m == 9 || m == 11 then 30
    else 31
  }

  predicate IsDate(d: Date) {
    MIN_YEAR <= d.year <= MAX_YEAR && 1 <= d.month <= 12 && 1 <= d.day <= DaysInMonth(d.year, d.month)
  }

  function Build(year: int, month: int, day: int): Option<Date> {
    if IsDate(Date(year, month, day)) then Some(Date(year, month, day)) else None
  }

  /** Days before 1 January of a year. */
  function BeforeYear(y: int): int {
    365 * (y - 1) + (y - 1) / 4 - (y - 1) / 100 + (y - 1) / 400
  }

  /** Days of the year before the first of a month. */
  function BeforeMonth(y: int, m: int): int {
    if m <= 1 then 0 else BeforeMonth(y, m - 1) + DaysInMonth(y, m - 1)
  }

  function Ordinal(d: Date): int {
    BeforeYear(d.year) + BeforeMonth(d.year, d.month) + d.day
  }

  function YearLength(y: int): int {
    if Leap(y) then 366 else 365
  }

  lemma QuarterStep(y: int)
    ensures y / 4 == (y - 1) / 4 + if y % 4 == 0 then 1 else 0
  {}

  lemma CenturyStep(y: int)
    ensures y / 100 == (y - 1) / 100 + if y % 100 == 0 then 1 else 0
    ensures y % 100 == 0 ==> y % 4 == 0
  {
    assert y == 100 * (y / 100) + y % 100;
  }

  lemma CycleStep(y: int)
    ensures y / 400 == (y - 1) / 400 + if y % 400 == 0 then 1 else 0
    ensures y % 400 == 0 ==> y % 100 == 0
  {
    assert y == 400 * (y / 400) + y % 400;
  }

  lemma YearStep(y: int)
    ensures BeforeYear(y + 1) == BeforeYear(y) + YearLength(y)
  {
    QuarterStep(y);
    CenturyStep(y);
    CycleStep(y);
  }

  lemma {:induction false} YearsSpan(y: int, k: nat)
    ensures 365 * k <= BeforeYear(y + k) - BeforeYear(y) <= 366 * k
  {
    if k > 0 {
      YearsSpan(y, k - 1);
      YearStep(y + k - 1);
    }
  }

  lemma MonthsOfYear(y: int)
    ensures BeforeMonth(y, 13) == YearLength(y)
    ensures BeforeMonth(y, 1) == 0 && BeforeMonth(y, 3) == 31 + DaysInMonth(y, 2)
  {
    assert BeforeMonth(y, 2) == 31;
    assert BeforeMonth(y, 3) == 31 + DaysInMonth(y, 2);
    assert BeforeMonth(y, 5) == BeforeMonth(y, 3) + 61;
    assert BeforeMonth(y, 7) == BeforeMonth(y, 5) + 61;
    assert BeforeMonth(y, 9) == BeforeMonth(y, 7) + 62;
    assert BeforeMonth(y, 11) == BeforeMonth(y, 9) + 61;
    assert BeforeMonth(y, 13) == BeforeMonth(y, 11) + 61;
  }

  lemma {:induction false} BeforeMonthGrows(y: int, m: int, n: int)
    requires 1 <= m <= n
    ensures BeforeMonth(y, m) <= BeforeMonth(y, n)
    ensures m < n ==> BeforeMonth(y, m) + DaysInMonth(y, m) <= BeforeMonth(y, n)
    decreases n - m
  {
    if m < n {
      BeforeMonthGrows(y, m, n - 1);
    }
  }

  /** A date lies inside its own year. */
  lemma InsideYear(d: Date)
    requires IsDate(d)
    ensures BeforeYear(d.year) < Ordinal(d) <= BeforeYear(d.year + 1)
  {
    BeforeMonthGrows(d.year, 1, d.month);
    BeforeMonthGrows(d.year, d.month, 13);
    MonthsOfYear(d.year);
    YearStep(d.year);
  }

  lemma LaterYearIsLater(a: Date, b: Date)
    requires IsDate(a) && IsDate(b) && a.year < b.year
    ensures Ordinal(a) < Ordinal(b)
  {
    InsideYear(a);
    InsideYear(b);
    YearsSpan(a.year + 1, b.year - a.year - 1);
  }

  /** Two dates with one ordinal are one date. */
  lemma OrdinalInjective(a: Date, b: Date)
    requires IsDate(a) && IsDate(b) && Ordinal(a) == Ordinal(b)
    ensures a == b
  {
    if a.year < b.year {
      LaterYearIsLater(a, b);
    } else if b.year < a.year {
      LaterYearIsLater(b, a);
    } else if a.month < b.month {
      BeforeMonthGrows(a.year, a.month, b.month);
    } else if b.month < a.month {
      BeforeMonthGrows(a.year, b.month, a.month);
    }
  }

  function YearOf(n: int, y: int): (r: int)
    requires BeforeYear(y) < n
    ensures y <= r && BeforeYear(r) < n <= BeforeYear(r + 1)
    decreases n - BeforeYear(y)
  {
    YearStep(y);
    if n <= BeforeYear(y + 1) then y else YearOf(n, y + 1)
  }

  function MonthOf(y: int, r: int, m: int): (month: int)
    requires 1 <= m <= 12 && BeforeMonth(y, m) < r <= BeforeMonth(y, 13)
    ensures m <= month <= 12 && BeforeMonth(y, month) < r <= BeforeMonth(y, month + 1)
    decreases 12 - m
  {
    if r <= BeforeMonth(y, m + 1) then m else MonthOf(y, r, m + 1)
  }

  predicate InRange(n: int) {
    1 <= n <= BeforeYear(MAX_YEAR + 1)
  }

  function FromOrdinal(n: int): (d: Date)
    requires InRange(n)
    ensures IsDate(d) && Ordinal(d) == n
  {
    assert BeforeYear(1) == 0;
    var y := YearOf(n, 1);
    MonthsOfYear(y);
    YearStep(y);
    var m := MonthOf(y, n - BeforeYear(y), 1);
    Date(y, m, n - BeforeYear(y) - BeforeMonth(y, m))
  }

  /** `fromordinal` undoes `toordinal`. */
  lemma FromOrdinalOfOrdinal(d: Date)
    requires IsDate(d)
    ensures InRange(Ordinal(d)) && FromOrdinal(Ordinal(d)) == d
  {
    InsideYear(d);
    YearsSpan(1, d.year - 1);
    YearsSpan(d.year + 1, MAX_YEAR - d.year);
    OrdinalInjective(FromOrdinal(Ordinal(d)), d);
  }
}
