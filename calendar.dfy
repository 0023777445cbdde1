/**
  The proleptic Gregorian calendar as JavaScript's `Date` presents it: a day is a
  `Date(year, month, day)` with a 0-based month (`getMonth()`) and a 1-based day of the
  month (`getDate()`), and each day has a day number counted from 1970-01-01 (day 0).
  One timezone is assumed throughout, so local and UTC calendar fields coincide.
 */
module Calendar {
  import opened Wrappers
  import opened Text

  /** The Gregorian leap rule: every fourth year, except centuries not divisible by 400. */
  predicate IsLeapYear(y: int)
  {
    y % 4 == 0 && (y % 100 != 0 || y % 400 == 0)
  }

  function DaysInYear(y: int): int
  {
    if IsLeapYear(y) then 366 else 365
  }

  /** Days in the 0-based month `m` of year `y`. */
  function DaysInMonth(y: int, m: int): (n: int)
    requires 0 <= m < 12
    ensures 28 <= n <= 31
    ensures m == 1 ==> (n == 29 <==> IsLeapYear(y))
  {
    if m == 1 then (if IsLeapYear(y) then 29 else 28)
    else if m == 3 || m == 5 || m == 8 || m == 10 then 30
    else 31
  }

  /** Days of year `y` before the first of the 0-based month `m`. */
  function DaysBeforeMonth(y: int, m: int): int
    requires 0 <= m <= 12
  {
    if m == 0 then 0 else DaysBeforeMonth(y, m - 1) + DaysInMonth(y, m - 1)
  }

  /** The twelve months together make up the year. */
  lemma MonthsFillYear(y: int)
    ensures DaysBeforeMonth(y, 12) == DaysInYear(y)
    ensures DaysBeforeMonth(y, 11) + 31 == DaysInYear(y)
  {
    var leap := if IsLeapYear(y) then 1 else 0;
    assert DaysBeforeMonth(y, 1) == 31;
    assert DaysBeforeMonth(y, 2) == 59 + leap;
    assert DaysBeforeMonth(y, 3) == 90 + leap;
    assert DaysBeforeMonth(y, 4) == 120 + leap;
    assert DaysBeforeMonth(y, 5) == 151 + leap;
    assert DaysBeforeMonth(y, 6) == 181 + leap;
    assert DaysBeforeMonth(y, 7) == 212 + leap;
    assert DaysBeforeMonth(y, 8) == 243 + leap;
    assert DaysBeforeMonth(y, 9) == 273 + leap;
    assert DaysBeforeMonth(y, 10) == 304 + leap;
    assert DaysBeforeMonth(y, 11) == 334 + leap;
    assert DaysBeforeMonth(y, 12) == 365 + leap;
  }

  /** Months start later the later they are in the year. */
  lemma {:induction false} DaysBeforeMonthMonotone(y: int, a: int, b: int)
    requires 0 <= a <= b <= 12
    ensures DaysBeforeMonth(y, a) <= DaysBeforeMonth(y, b)
    decreases b - a
  {
    if a < b {
      DaysBeforeMonthMonotone(y, a, b - 1);
    }
  }

  datatype Date = Date(year: int, month: int, day: int)

  predicate ValidDate(d: Date)
  {
    0 <= d.month < 12 && 1 <= d.day <= DaysInMonth(d.year, d.month)
  }

  /** Day number of January 1 of year `y`. */
  function YearStart(y: int): int
    decreases if y < 1970 then 1970 - y else y - 1970
  {
    if y == 1970 then 0
    else if y > 1970 then YearStart(y - 1) + DaysInYear(y - 1)
    else YearStart(y + 1) - DaysInYear(y)
  }

  lemma YearStartStep(y: int)
    ensures YearStart(y + 1) == YearStart(y) + DaysInYear(y)
  {
  }

  /** Years start later the later they are. */
  lemma {:induction false} YearStartMonotone(a: int, b: int)
    requires a <= b
    ensures YearStart(a) <= YearStart(b)
    decreases b - a
  {
    if a < b {
      YearStartMonotone(a, b - 1);
      YearStartStep(b - 1);
    }
  }

  /** The day number of a calendar day. */
  function DayNumber(d: Date): int
    requires ValidDate(d)
  {
    YearStart(d.year) + DaysBeforeMonth(d.year, d.month) + d.day - 1
  }

  /** The day after `d`: the next day of the month, else the first of the next month or year. */
  function NextDay(d: Date): (e: Date)
    requires ValidDate(d)
    ensures ValidDate(e)
  {
    if d.day < DaysInMonth(d.year, d.month) then Date(d.year, d.month, d.day + 1)
    else if d.month < 11 then Date(d.year, d.month + 1, 1)
    else Date(d.year + 1, 0, 1)
  }

  /** The day before `d`: the previous day of the month, else the last of the previous month or year. */
  function PrevDay(d: Date): (e: Date)
    requires ValidDate(d)
    ensures ValidDate(e)
  {
    if d.day > 1 then Date(d.year, d.month, d.day - 1)
    else if d.month > 0 then Date(d.year, d.month - 1, DaysInMonth(d.year, d.month - 1))
    else Date(d.year - 1, 11, 31)
  }

  /**
    The calendar day with day number `n`, reached by stepping one day at a time from
    1970-01-01, as `setDate(getDate() + 1)` and `setDate(getDate() - 1)` do.
   */
  function FromDayNumber(n: int): (d: Date)
    ensures ValidDate(d)
  {
    Walk(Date(1970, 0, 1), n)
  }

  /** The day `k` days after `d` (before it when `k` is negative), one day per step. */
  function Walk(d: Date, k: int): (e: Date)
    requires ValidDate(d)
    ensures ValidDate(e)
    decreases if k < 0 then -k else k
  {
    if k == 0 then d
    else if k > 0 then Walk(NextDay(d), k - 1)
    else Walk(PrevDay(d), k + 1)
  }

  /** Stepping forward a day adds one to the day number. */
  lemma NextDayNumber(d: Date)
    requires ValidDate(d)
    ensures DayNumber(NextDay(d)) == DayNumber(d) + 1
  {
    YearStartStep(d.year);
    if d.day == DaysInMonth(d.year, d.month) && d.month == 11 {
      MonthsFillYear(d.year);
    }
  }

  /** Stepping back a day subtracts one from the day number. */
  lemma PrevDayNumber(d: Date)
    requires ValidDate(d)
    ensures DayNumber(PrevDay(d)) == DayNumber(d) - 1
  {
    YearStartStep(d.year - 1);
    if d.day == 1 && d.month == 0 {
      MonthsFillYear(d.year - 1);
    }
  }

  /** Walking `k` days moves the day number by `k`. */
  lemma {:induction false} WalkNumber(d: Date, k: int)
    requires ValidDate(d)
    ensures DayNumber(Walk(d, k)) == DayNumber(d) + k
    decreases if k < 0 then -k else k
  {
    if k > 0 {
      NextDayNumber(d);
      WalkNumber(NextDay(d), k - 1);
    } else if k < 0 {
      PrevDayNumber(d);
      WalkNumber(PrevDay(d), k + 1);
    }
  }

  /** `FromDayNumber` lands on the day with the requested number. */
  lemma FromDayNumberCorrect(n: int)
    ensures DayNumber(FromDayNumber(n)) == n
  {
    WalkNumber(Date(1970, 0, 1), n);
  }

  /** Every valid calendar day is recovered from its day number. */
  lemma DayNumberRoundTrip(d: Date)
    requires ValidDate(d)
    ensures FromDayNumber(DayNumber(d)) == d
  {
    var n := DayNumber(d);
    var e := FromDayNumber(n);
    FromDayNumberCorrect(n);
    DayNumberInjective(d, e);
  }

  /** Distinct calendar days have distinct day numbers. */
  lemma DayNumberInjective(d: Date, e: Date)
    requires ValidDate(d) && ValidDate(e) && DayNumber(d) == DayNumber(e)
    ensures d == e
  {
    YearBounds(d);
    YearBounds(e);
    if d.year < e.year {
      YearStartMonotone(d.year + 1, e.year);
    } else if e.year < d.year {
      YearStartMonotone(e.year + 1, d.year);
    }
    assert d.year == e.year;
    var y := d.year;
    assert DaysBeforeMonth(y, d.month + 1) == DaysBeforeMonth(y, d.month) + DaysInMonth(y, d.month);
    if d.month < e.month {
      DaysBeforeMonthMonotone(y, d.month + 1, e.month);
    } else if e.month < d.month {
      DaysBeforeMonthMonotone(y, e.month + 1, d.month);
    }
  }

  /** A valid day falls inside its own year's range of day numbers. */
  lemma YearBounds(d: Date)
    requires ValidDate(d)
    ensures YearStart(d.year) <= DayNumber(d) < YearStart(d.year + 1)
  {
    YearStartStep(d.year);
    MonthsFillYear(d.year);
    DaysBeforeMonthMonotone(d.year, 0, d.month);
    DaysBeforeMonthMonotone(d.year, d.month + 1, 12);
    assert DaysBeforeMonth(d.year, d.month + 1) == DaysBeforeMonth(d.year, d.month) + DaysInMonth(d.year, d.month);
  }

  /** January 1 is the year's first day number and December 31 its last. */
  lemma YearEnds(y: int)
    ensures ValidDate(Date(y, 0, 1)) && DayNumber(Date(y, 0, 1)) == YearStart(y)
    ensures ValidDate(Date(y, 11, 31)) && DayNumber(Date(y, 11, 31)) == YearStart(y) + DaysInYear(y) - 1
  {
    MonthsFillYear(y);
  }

  /** The `i`-th day after January 1, for `i` below the year's length, still lies in that year. */
  lemma DayOfYear(y: int, i: int)
    requires 0 <= i < DaysInYear(y)
    ensures FromDayNumber(YearStart(y) + i).year == y
  {
    var n := YearStart(y) + i;
    var e := FromDayNumber(n);
    FromDayNumberCorrect(n);
    YearBounds(e);
    YearStartStep(y);
    if e.year < y {
      YearStartMonotone(e.year + 1, y);
    } else if e.year > y {
      YearStartMonotone(y + 1, e.year);
    }
  }

  /** Day of the week, 0 = Sunday (`getDay()`); 1970-01-01 was a Thursday. */
  function Weekday(n: int): (w: int)
    ensures 0 <= w <= 6
    ensures w == 4 <==> n % 7 == 0
  {
    (n + 4) % 7
  }

  /** Consecutive days have consecutive weekdays, Saturday wrapping round to Sunday. */
  lemma WeekdayNext(n: int)
    ensures Weekday(n + 1) == (Weekday(n) + 1) % 7
    ensures Weekday(n + 7) == Weekday(n)
  {
  }

  /** Week of the month, `Math.ceil(day / 7)`: days 1-7 are week 1, 8-14 week 2, and so on. */
  function WeekOfMonth(day: int): (w: int)
    requires 1 <= day
    ensures 7 * (w - 1) < day <= 7 * w
    ensures day <= 31 ==> 1 <= w <= 5
  {
    (day + 6) / 7
  }

  /** The year as `toISOString` writes it: four digits, or a signed six-digit extended year. */
  function IsoYear(y: int): string
  {
    if 0 <= y <= 9999 then Pad(y, 4)
    else (if y < 0 then "-" else "+") + Pad(if y < 0 then -y else y, 6)
  }

  /** `toISOString().split("T")[0]`: the day as `YYYY-MM-DD`. */
  function IsoDate(d: Date): string
    requires ValidDate(d)
  {
    IsoYear(d.year) + "-" + Pad(d.month + 1, 2) + "-" + Pad(d.day, 2)
  }

  /** A date from a year, a 1-based month and a day, when they name a real day. */
  function MakeDate(year: nat, month1: nat, day: nat): (r: Option<Date>)
    ensures r.Some? ==> ValidDate(r.value)
  {
    if 1 <= month1 <= 12 && 1 <= day <= DaysInMonth(year, month1 - 1)
    then Some(Date(year, month1 - 1, day))
    else None
  }

  /**
    The date-only forms of the ECMAScript date-time string format: `YYYY`, `YYYY-MM` and
    `YYYY-MM-DD`, a missing month or day standing for the first. Only these forms are read;
    anything else, and any month or day out of range, gives `None`. `Date.parse` leaves an
    engine free to accept formats of its own (an unpadded `2025-7-5`, say, or a day past the
    end of its month), so `None` stands for the invalid date only on the strict forms.
   */
  function ParseIsoDate(s: string): (r: Option<Date>)
    ensures r.Some? ==> ValidDate(r.value)
  {
    if |s| == 4 then
      match ParseDigits(s)
      case Some(y) => MakeDate(y, 1, 1)
      case None => None
    else if |s| == 7 && s[4] == '-' then
      match (ParseDigits(s[..4]), ParseDigits(s[5..]))
      case (Some(y), Some(m)) => MakeDate(y, m, 1)
      case _ => None
    else if |s| == 10 && s[4] == '-' && s[7] == '-' then
      match (ParseDigits(s[..4]), ParseDigits(s[5..7]), ParseDigits(s[8..]))
      case (Some(y), Some(m), Some(dd)) => MakeDate(y, m, dd)
      case _ => None
    else None
  }

  /** Reading back the ISO string of a four-digit-year date gives the date. */
  lemma IsoDateRoundTrip(d: Date)
    requires ValidDate(d) && 0 <= d.year <= 9999
    ensures |IsoDate(d)| == 10
    ensures ParseIsoDate(IsoDate(d)) == Some(d)
  {
    var s := IsoDate(d);
    var ys, ms, ds := Pad(d.year, 4), Pad(d.month + 1, 2), Pad(d.day, 2);
    PadRoundTrip(d.year, 4);
    PadRoundTrip(d.month + 1, 2);
    PadRoundTrip(d.day, 2);
    assert s == ys + "-" + ms + "-" + ds;
    assert s[..4] == ys && s[5..7] == ms && s[8..] == ds;
  }

  /** The ISO date string holds only digits and dashes. */
  lemma IsoDateCharacters(d: Date)
    requires ValidDate(d) && 0 <= d.year <= 9999
    ensures forall i :: 0 <= i < |IsoDate(d)| ==> IsDigit(IsoDate(d)[i]) || IsoDate(d)[i] == '-'
  {
    PadRoundTrip(d.year, 4);
    PadRoundTrip(d.month + 1, 2);
    PadRoundTrip(d.day, 2);
  }
}
