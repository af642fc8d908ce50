/** The day-number formula of the timestamp parser (`crates/quota/src/lib.rs`) against a
    plain count of calendar days. */
module Calendar {

  datatype Date = Date(year: int, month: int, day: int)

  predicate IsLeap(year: int) {
    year % 4 == 0 && (year % 100 != 0 || year % 400 == 0)
  }

  function DaysInYear(year: int): int {
    if IsLeap(year) then 366 else 365
  }

  function DaysInMonth(year: int, month: int): int {
    if month == 2 then (if IsLeap(year) then 29 else 28)
    else if month in {4, 6, 9, 11} then 30
    else 31
  }

  predicate IsDate(d: Date) {
    d.year >= 0 && 1 <= d.month <= 12 && 1 <= d.day <= DaysInMonth(d.year, d.month)
  }

  // ----- The reference: counting years, months and days one at a time -----

  function DaysBeforeYear(year: nat): nat {
    if year == 0 then 0 else DaysBeforeYear(year - 1) + DaysInYear(year - 1)
  }

  function DaysBeforeMonth(year: int, month: int): int
    decreases month
  {
    if month <= 1 then 0 else DaysBeforeMonth(year, month - 1) + DaysInMonth(year, month - 1)
  }

  /** Days since 0000-01-01. The day may lie past the end of its month; it keeps counting. */
  function DaysBefore(d: Date): int
    requires d.year >= 0
  {
    DaysBeforeYear(d.year) + DaysBeforeMonth(d.year, d.month) + d.day - 1
  }

  const EPOCH := Date(1970, 1, 1)

  /** Days since 1970-01-01. */
  function DayNumber(d: Date): int
    requires d.year >= 0
  {
    DaysBefore(d) - DaysBefore(EPOCH)
  }

  function NextDay(d: Date): (next: Date)
    requires IsDate(d)
    ensures IsDate(next)
  {
    if d.day < DaysInMonth(d.year, d.month) then d.(day := d.day + 1)
    else if d.month < 12 then Date(d.year, d.month + 1, 1)
    else Date(d.year + 1, 1, 1)
  }

  predicate Before(a: Date, b: Date) {
    a.year < b.year
    || (a.year == b.year && a.month < b.month)
    || (a.year == b.year && a.month == b.month && a.day < b.day)
  }

  // ----- The program's formula -----

  /** Integer division as the program's language does it: towards zero. */
  function TruncDiv(a: int, b: int): int
    requires b > 0
  {
    if a >= 0 then a / b else -((-a) / b)
  }

  function EraDays(d: Date): int {
    var adjustedYear := d.year - (if d.month <= 2 then 1 else 0);
    var era := TruncDiv(if adjustedYear >= 0 then adjustedYear else adjustedYear - 399, 400);
    var yearOfEra := adjustedYear - era * 400;
    var shiftedMonth := d.month + (if d.month > 2 then -3 else 9);
    var dayOfYear := TruncDiv(153 * shiftedMonth + 2, 5) + d.day - 1;
    var dayOfEra := yearOfEra * 365 + TruncDiv(yearOfEra, 4) - TruncDiv(yearOfEra, 100) + dayOfYear;
    era * 146097 + dayOfEra - 719468
  }

  // ----- Proofs -----

  /** Rounding up from one year to the next, for the three leap cycles. */
  lemma FourYearStep(year: int)
    ensures (year + 4) / 4 - (year + 3) / 4 == if year % 4 == 0 then 1 else 0
  {
    assert year == 4 * (year / 4) + year % 4;
  }

  lemma CenturyStep(year: int)
    ensures (year + 100) / 100 - (year + 99) / 100 == if year % 100 == 0 then 1 else 0
  {
    assert year == 100 * (year / 100) + year % 100;
  }

  lemma EraStep(year: int)
    ensures (year + 400) / 400 - (year + 399) / 400 == if year % 400 == 0 then 1 else 0
  {
    assert year == 400 * (year / 400) + year % 400;
  }

  /** Each year adds a day to the leap count exactly when it is a leap year. */
  lemma LeapStep(year: int)
    ensures LeapsBefore(year + 1) == LeapsBefore(year) + (if IsLeap(year) then 1 else 0)
  {
    FourYearStep(year);
    CenturyStep(year);
    EraStep(year);
    EraIsCentury(year);
    CenturyIsFourth(year);
  }

  /** Leap years from year 0 up to, and without, `year`. */
  function LeapsBefore(year: int): int {
    (year + 3) / 4 - (year + 99) / 100 + (year + 399) / 400
  }

  lemma {:induction false} YearsClosedForm(year: nat)
    ensures DaysBeforeYear(year) == 365 * year + LeapsBefore(year)
  {
    if year > 0 {
      YearsClosedForm(year - 1);
      LeapStep(year - 1);
      hide IsLeap, LeapsBefore;
    }
  }

  lemma Centuries(year: int, k: int)
    requires year == 100 * k
    ensures year % 100 == 0
  {
  }

  lemma Fourths(year: int, k: int)
    requires year == 4 * k
    ensures year % 4 == 0
  {
  }

  /** A year divisible by 400 is divisible by 100. */
  lemma EraIsCentury(year: int)
    ensures year % 400 == 0 ==> year % 100 == 0
  {
    if year % 400 == 0 {
      Centuries(year, 4 * (year / 400));
    }
  }

  /** A year divisible by 100 is divisible by 4. */
  lemma CenturyIsFourth(year: int)
    ensures year % 100 == 0 ==> year % 4 == 0
  {
    if year % 100 == 0 {
      Fourths(year, 25 * (year / 100));
    }
  }

  /** Days before each month of a common year that starts on 1 January. */
  function JanuaryOffset(month: int): int {
    match month
    case 2 => 31 case 3 => 59 case 4 => 90 case 5 => 120 case 6 => 151 case 7 => 181
    case 8 => 212 case 9 => 243 case 10 => 273 case 11 => 304 case 12 => 334 case _ => 0
  }

  /** Days before each month of a year that starts on 1 March. */
  function MarchOffset(month: int): int {
    if month <= 2 then JanuaryOffset(month) + 306 else JanuaryOffset(month) - 59
  }

  lemma {:induction false} MonthsClosedForm(year: int, month: int)
    requires 1 <= month <= 12
    ensures DaysBeforeMonth(year, month) ==
            JanuaryOffset(month)
            + (if month > 2 && IsLeap(year) then 1 else 0)
  {
    hide IsLeap;
    if month > 1 {
      MonthsClosedForm(year, month - 1);
    }
  }

  /** The formula is the plain count, for every year the parser can read and every month,
      whatever the day. */
  lemma FormulaCountsDays(d: Date)
    requires d.year >= 0 && 1 <= d.month <= 12
    ensures EraDays(d) == DayNumber(d)
  {
    hide EraDays, DaysBeforeYear, DaysBeforeMonth, JanuaryOffset, IsLeap, LeapDays, LeapsBefore;
    EraClosedForm(d);
    YearsClosedForm(d.year);
    EpochOffset();
    MonthsClosedForm(d.year, d.month);
    LeapDaysShift(d.year);
  }

  /** Leap days counted up to 1 January, and up to 1 March before and after it. */
  lemma LeapDaysShift(year: int)
    ensures LeapDays(year - 1) + 1 == LeapsBefore(year)
    ensures LeapDays(year) == LeapDays(year - 1) + (if IsLeap(year) then 1 else 0)
  {
    LeapStep(year);
    assert (year + 3) / 4 == (year - 1) / 4 + 1 && (year + 4) / 4 == year / 4 + 1;
    assert (year + 99) / 100 == (year - 1) / 100 + 1 && (year + 100) / 100 == year / 100 + 1;
    assert (year + 399) / 400 == (year - 1) / 400 + 1 && (year + 400) / 400 == year / 400 + 1;
  }

  function LeapDays(year: int): int {
    year / 4 - year / 100 + year / 400
  }

  lemma EraClosedForm(d: Date)
    requires d.year >= 0 && 1 <= d.month <= 12
    ensures var adjusted := d.year - (if d.month <= 2 then 1 else 0);
            EraDays(d) == 365 * adjusted + LeapDays(adjusted)
                          + MarchOffset(d.month)
                          + d.day - 1 - 719468
  {
    ShiftedMonths(d.month);
    MarchYear(d.year - (if d.month <= 2 then 1 else 0));
  }

  lemma EpochOffset()
    ensures DaysBefore(EPOCH) == 719528
  {
    YearsClosedForm(EPOCH.year);
  }

  lemma ShiftedMonths(month: int)
    requires 1 <= month <= 12
    ensures TruncDiv(153 * (month + (if month > 2 then -3 else 9)) + 2, 5)
            == MarchOffset(month)
  {
  }

  /** The leap days of a March-based year, counted inside its 400-year era. */
  lemma MarchYear(adjusted: int)
    requires adjusted >= -1
    ensures var era := TruncDiv(if adjusted >= 0 then adjusted else adjusted - 399, 400);
            var y := adjusted - era * 400;
            && 0 <= y < 400
            && era * 146097 + y * 365 + TruncDiv(y, 4) - TruncDiv(y, 100)
               == 365 * adjusted + LeapDays(adjusted)
  {
    var era := TruncDiv(if adjusted >= 0 then adjusted else adjusted - 399, 400);
    assert era == adjusted / 400;
    EraSplit(era, adjusted - era * 400);
  }

  lemma EraSplit(era: int, y: int)
    requires 0 <= y < 400
    ensures (400 * era + y) / 4 == 100 * era + y / 4
    ensures (400 * era + y) / 100 == 4 * era + y / 100
  {
    assert 400 * era + y == 4 * (100 * era + y / 4) + y % 4;
    assert 400 * era + y == 100 * (4 * era + y / 100) + y % 100;
  }

  /** Calendar order and successor carry over to the formula. */
  lemma NextDayIsNext(d: Date)
    requires IsDate(d)
    ensures EraDays(NextDay(d)) == EraDays(d) + 1
  {
    FormulaCountsDays(d);
    FormulaCountsDays(NextDay(d));
    CountsNextDay(d);
    hide EraDays, DaysBefore, NextDay;
  }

  lemma CountsNextDay(d: Date)
    requires IsDate(d)
    ensures DaysBefore(NextDay(d)) == DaysBefore(d) + 1
  {
    if d.month == 12 {
      MonthsClosedForm(d.year, 12);
    }
  }

  lemma {:induction false} YearsIncrease(a: nat, b: nat)
    requires a < b
    ensures DaysBeforeYear(a) + DaysInYear(a) <= DaysBeforeYear(b)
  {
    if a + 1 < b {
      YearsIncrease(a, b - 1);
    }
  }

  /** Later dates have larger numbers. */
  lemma FormulaIncreases(a: Date, b: Date)
    requires IsDate(a) && IsDate(b)
    ensures Before(a, b) <==> EraDays(a) < EraDays(b)
    ensures a == b <==> EraDays(a) == EraDays(b)
  {
    if Before(a, b) {
      IncreasesOneWay(a, b);
    } else if a != b {
      IncreasesOneWay(b, a);
    }
  }

  lemma DateInYear(d: Date)
    requires IsDate(d)
    ensures 0 <= DaysBeforeMonth(d.year, d.month) <= DaysInYear(d.year) - d.day
  {
    MonthsClosedForm(d.year, d.month);
    hide IsLeap, DaysBeforeMonth;
  }

  lemma IncreasesOneWay(a: Date, b: Date)
    requires IsDate(a) && IsDate(b) && Before(a, b)
    ensures EraDays(a) < EraDays(b)
  {
    FormulaCountsDays(a);
    FormulaCountsDays(b);
    DateInYear(a);
    DateInYear(b);
    hide EraDays, DaysBeforeYear, DaysBeforeMonth;
    if a.year < b.year {
      YearsIncrease(a.year, b.year);
    } else {
      MonthsIncrease(a.year, a.month, b.month);
    }
  }

  lemma {:induction false} MonthsIncrease(year: int, m: int, n: int)
    requires 1 <= m <= n <= 12
    ensures m < n ==> DaysBeforeMonth(year, m) + DaysInMonth(year, m) <= DaysBeforeMonth(year, n)
    decreases n
  {
    if m + 1 < n {
      MonthsIncrease(year, m, n - 1);
    }
  }

  /** A day past the end of its month, which the parser accepts up to 31, is the same
      instant as the day it runs over to. */
  lemma DayRunsOver(d: Date)
    requires d.year >= 0 && 1 <= d.month < 12 && DaysInMonth(d.year, d.month) < d.day
    ensures EraDays(d) == EraDays(Date(d.year, d.month + 1, d.day - DaysInMonth(d.year, d.month)))
  {
    FormulaCountsDays(d);
    FormulaCountsDays(Date(d.year, d.month + 1, d.day - DaysInMonth(d.year, d.month)));
    hide EraDays, DaysBeforeYear, DaysInMonth;
  }

  // ----- From day numbers back to dates -----

  const EPOCH_EVE := Date(1969, 12, 31)

  /** The date `n` days after 1970-01-01, walking the calendar from the day before it. */
  function DateOf(n: int): (d: Date)
    requires n >= -1
    ensures IsDate(d)
    decreases n
  {
    if n == -1 then EPOCH_EVE else NextDay(DateOf(n - 1))
  }

  lemma {:induction false} DateOfNumber(n: int)
    requires n >= -1
    ensures EraDays(DateOf(n)) == n
    decreases n
  {
    if n > -1 {
      DateOfNumber(n - 1);
      NextDayIsNext(DateOf(n - 1));
    }
  }

  /** 10000-01-01 is day 2932897, so every earlier day has a four-digit year. */
  lemma FourDigitYears(n: int)
    requires -1 <= n < 2932897
    ensures DateOf(n).year <= 9999
  {
    DateOfNumber(n);
    FormulaIncreases(DateOf(n), Date(10000, 1, 1));
  }
}
