/**
 * The proleptic Gregorian calendar on day numbers: the civil date, the
 * weekday (Monday = 0) and the ISO 8601 week date that pandas' `.dt`
 * accessor derives from a parsed `Fecha` timestamp (`dt.year`, `dt.month`,
 * `dt.isocalendar().week`, `dt.dayofweek`).
 */
module Calendar {

  /** A calendar day, counted from 0001-01-01 of the proleptic Gregorian calendar (day 0, a Monday). */
  type Day = int

  datatype Date = Date(year: int, month: int, day: int)

  predicate IsLeapYear(y: int) {
    y % 4 == 0 && (y % 100 != 0 || y % 400 == 0)
  }

  function DaysInYear(y: int): int {
    if IsLeapYear(y) then 366 else 365
  }

  function DaysInMonth(y: int, m: int): int
    requires 1 <= m <= 12
  {
    if m == 2 then (if IsLeapYear(y) then 29 else 28)
    else if m == 4 || m == 6 || m == 9 || m == 11 then 30
    else 31
  }

  predicate ValidDate(d: Date) {
    1 <= d.month <= 12 && 1 <= d.day <= DaysInMonth(d.year, d.month)
  }

  /** The number of days in the years 1 .. y - 1 (negative before year 1). */
  function DaysBeforeYear(y: int): int {
    var p := y - 1;
    365 * p + p / 4 - p / 100 + p / 400
  }

  /** The number of days of year y before the first of month m; m = 13 gives the length of the year. */
  function DaysBeforeMonth(y: int, m: int): int
    requires 1 <= m <= 13
  {
    var common :=
      if m == 1 then 0 else if m == 2 then 31 else if m == 3 then 59
      else if m == 4 then 90 else if m == 5 then 120 else if m == 6 then 151
      else if m == 7 then 181 else if m == 8 then 212 else if m == 9 then 243
      else if m == 10 then 273 else if m == 11 then 304 else if m == 12 then 334
      else 365;
    common + (if m > 2 && IsLeapYear(y) then 1 else 0)
  }

  lemma MonthLength(y: int, m: int)
    requires 1 <= m <= 12
    ensures DaysBeforeMonth(y, m + 1) == DaysBeforeMonth(y, m) + DaysInMonth(y, m)
    ensures DaysBeforeMonth(y, m + 1) <= DaysBeforeMonth(y, 13) == DaysInYear(y)
  {
  }

  lemma MulAtLeast(k: int, d: int)
    requires k > 0 && d >= 1
    ensures k * d >= k
  {
  }

  /** Euclidean division is determined by quotient and remainder. */
  lemma DivUnique(x: int, k: int, q: int, r: int)
    requires k > 0 && x == k * q + r && 0 <= r < k
    ensures x / k == q && x % k == r
  {
    var q0 := x / k;
    if q0 > q {
      assert k * q0 - k * q == k * (q0 - q);
      MulAtLeast(k, q0 - q);
    } else if q0 < q {
      assert k * q - k * q0 == k * (q - q0);
      MulAtLeast(k, q - q0);
    }
  }

  lemma DivStep(p: int, k: int)
    requires k > 0
    ensures (p + 1) / k == p / k + (if (p + 1) % k == 0 then 1 else 0)
  {
    var q, r := p / k, p % k;
    if r == k - 1 {
      DivUnique(p + 1, k, q + 1, 0);
    } else {
      DivUnique(p + 1, k, q, r + 1);
    }
  }

  /** Consecutive years are DaysInYear apart: the closed form above counts leap days correctly. */
  lemma YearLength(y: int)
    ensures DaysBeforeYear(y + 1) == DaysBeforeYear(y) + DaysInYear(y)
  {
    var p := y - 1;
    DivStep(p, 4);
    DivStep(p, 100);
    DivStep(p, 400);
    if y % 400 == 0 {
      DivUnique(y, 100, 4 * (y / 400), 0);
    }
    if y % 100 == 0 {
      DivUnique(y, 4, 25 * (y / 100), 0);
    }
  }

  lemma {:induction false} YearsIncrease(a: int, b: int)
    requires a <= b
    ensures DaysBeforeYear(a) + 365 * (b - a) <= DaysBeforeYear(b)
    decreases b - a
  {
    if a < b {
      YearLength(a);
      YearsIncrease(a + 1, b);
    }
  }

  /** A 400-year era of the Gregorian cycle has 146097 days. */
  lemma EraStart(e: int)
    ensures DaysBeforeYear(400 * e + 1) == 146097 * e
  {
    assert (400 * e) / 4 == 100 * e;
    assert (400 * e) / 100 == 4 * e;
    assert (400 * e) / 400 == e;
  }

  /** The number of days from 0001-01-01 to a valid date. */
  function DaysFromCivil(d: Date): (n: Day)
    requires ValidDate(d)
    ensures DaysBeforeYear(d.year) <= n < DaysBeforeYear(d.year + 1)
  {
    YearLength(d.year);
    MonthLength(d.year, d.month);
    DaysBeforeYear(d.year) + DaysBeforeMonth(d.year, d.month) + d.day - 1
  }

  /** Searches forward from year y for the year that holds day n. */
  function FindYear(y: int, n: Day): (r: int)
    requires DaysBeforeYear(y) <= n
    ensures y <= r && DaysBeforeYear(r) <= n < DaysBeforeYear(r + 1)
    decreases n - DaysBeforeYear(y)
  {
    YearLength(y);
    if n < DaysBeforeYear(y + 1) then y else FindYear(y + 1, n)
  }

  /** The civil year that holds day n. */
  function YearOf(n: Day): (y: int)
    ensures DaysBeforeYear(y) <= n < DaysBeforeYear(y + 1)
  {
    var e := n / 146097;
    EraStart(e);
    FindYear(400 * e + 1, n)
  }

  /** Searches forward from month m for the month of year y that holds day-of-year doy (0-based). */
  function FindMonth(y: int, m: int, doy: int): (r: int)
    requires 1 <= m <= 12 && DaysBeforeMonth(y, m) <= doy < DaysInYear(y)
    ensures m <= r <= 12 && DaysBeforeMonth(y, r) <= doy < DaysBeforeMonth(y, r + 1)
    decreases 12 - m
  {
    MonthLength(y, m);
    if doy < DaysBeforeMonth(y, m + 1) then m else FindMonth(y, m + 1, doy)
  }

  /** The civil date of day n. */
  function CivilFromDays(n: Day): (d: Date)
    ensures ValidDate(d) && DaysFromCivil(d) == n
  {
    var y := YearOf(n);
    YearLength(y);
    var doy := n - DaysBeforeYear(y);
    var m := FindMonth(y, 1, doy);
    MonthLength(y, m);
    Date(y, m, doy - DaysBeforeMonth(y, m) + 1)
  }

  /** At most one year holds a given day. */
  lemma YearUnique(n: Day, y1: int, y2: int)
    requires DaysBeforeYear(y1) <= n < DaysBeforeYear(y1 + 1)
    requires DaysBeforeYear(y2) <= n < DaysBeforeYear(y2 + 1)
    ensures y1 == y2
  {
    if y1 < y2 {
      YearsIncrease(y1 + 1, y2);
    } else if y2 < y1 {
      YearsIncrease(y2 + 1, y1);
    }
  }

  /** At most one month of a year holds a given day of the year. */
  lemma MonthUnique(y: int, doy: int, m1: int, m2: int)
    requires 1 <= m1 <= 12 && DaysBeforeMonth(y, m1) <= doy < DaysBeforeMonth(y, m1 + 1)
    requires 1 <= m2 <= 12 && DaysBeforeMonth(y, m2) <= doy < DaysBeforeMonth(y, m2 + 1)
    ensures m1 == m2
  {
    if m1 < m2 {
      MonthsIncrease(y, m1, m2);
    } else if m2 < m1 {
      MonthsIncrease(y, m2, m1);
    }
  }

  /** Distinct valid dates have distinct day numbers, so CivilFromDays inverts DaysFromCivil. */
  lemma CivilRoundTrip(d: Date)
    requires ValidDate(d)
    ensures CivilFromDays(DaysFromCivil(d)) == d
  {
    var n := DaysFromCivil(d);
    var c := CivilFromDays(n);
    assert DaysBeforeYear(c.year) <= n < DaysBeforeYear(c.year + 1);
    YearUnique(n, c.year, d.year);
    SameYearDates(c, d);
  }

  /** Two valid dates of the same year with the same day number are the same date. */
  lemma SameYearDates(c: Date, d: Date)
    requires ValidDate(c) && ValidDate(d) && c.year == d.year
    requires DaysFromCivil(c) == DaysFromCivil(d)
    ensures c == d
  {
    DayOfYear(c);
    DayOfYear(d);
    MonthUnique(d.year, DaysFromCivil(d) - DaysBeforeYear(d.year), c.month, d.month);
  }

  /** The day of the year of a valid date, and the month that holds it. */
  lemma DayOfYear(d: Date)
    requires ValidDate(d)
    ensures var doy := DaysFromCivil(d) - DaysBeforeYear(d.year);
      doy == DaysBeforeMonth(d.year, d.month) + d.day - 1 &&
      DaysBeforeMonth(d.year, d.month) <= doy < DaysBeforeMonth(d.year, d.month + 1)
  {
    MonthLength(d.year, d.month);
  }

  lemma MonthsIncrease(y: int, m1: int, m2: int)
    requires 1 <= m1 < m2 <= 13
    ensures DaysBeforeMonth(y, m1 + 1) <= DaysBeforeMonth(y, m2)
  {
  }

  /** And DaysFromCivil inverts CivilFromDays. */
  lemma DaysRoundTrip(n: Day)
    ensures DaysFromCivil(CivilFromDays(n)) == n
  {
  }

  /** `dt.year` */
  function Year(n: Day): int {
    CivilFromDays(n).year
  }

  /** `dt.month` */
  function Month(n: Day): (m: int)
    ensures 1 <= m <= 12
  {
    CivilFromDays(n).month
  }

  /** `dt.day` */
  function DayOfMonth(n: Day): (d: int)
    ensures 1 <= d <= 31
  {
    CivilFromDays(n).day
  }

  /** `dt.dayofweek`: Monday = 0 .. Sunday = 6, since day 0 (0001-01-01) is a Monday. */
  function Weekday(n: Day): (w: int)
    ensures 0 <= w <= 6
  {
    n % 7
  }

  /** The Monday that starts the Monday-to-Sunday week of day n. */
  function MondayOf(n: Day): (m: Day)
    ensures m == 7 * (n / 7) && m <= n < m + 7
  {
    n - Weekday(n)
  }

  /** Days 7q .. 7q + 6 form one week, from Monday (weekday 0) to Sunday (weekday 6). */
  lemma WeekOf(q: int, r: int)
    requires 0 <= r < 7
    ensures Weekday(7 * q + r) == r && MondayOf(7 * q + r) == 7 * q
  {
    DivUnique(7 * q + r, 7, q, r);
  }

  /** Going back Weekday(n) days from n reaches the Monday that starts n's week. */
  lemma MondayByWeekday(n: Day)
    ensures Weekday(n - Weekday(n)) == 0 && n - Weekday(n) == MondayOf(n)
  {
    WeekOf(n / 7, 0);
  }

  /** The weekday moves on by one each day and wraps from Sunday to Monday. */
  lemma WeekdayNext(n: Day)
    ensures Weekday(n + 1) == if Weekday(n) == 6 then 0 else Weekday(n) + 1
    ensures Weekday(n + 7) == Weekday(n)
  {
    var q, r := n / 7, n % 7;
    if r == 6 {
      WeekOf(q + 1, 0);
    } else {
      WeekOf(q, r + 1);
    }
    WeekOf(q + 1, r);
  }

  /** 2024-01-01 was a Monday. */
  lemma KnownMonday()
    ensures Weekday(DaysFromCivil(Date(2024, 1, 1))) == 0
  {
  }

  /** Year, Month and DayOfMonth name a valid date of day n. */
  lemma CivilColumns(n: Day)
    ensures var d := Date(Year(n), Month(n), DayOfMonth(n)); ValidDate(d) && DaysFromCivil(d) == n
  {
    assert Date(Year(n), Month(n), DayOfMonth(n)) == CivilFromDays(n);
  }

  /** The Thursday of the Monday-to-Sunday week that holds day n. */
  function IsoThursday(n: Day): (t: Day)
    ensures Weekday(t) == 3 && MondayOf(t) == MondayOf(n)
  {
    WeekOf(n / 7, 3);
    MondayOf(n) + 3
  }

  /** The ISO 8601 week-numbering year: the civil year of the Thursday of n's week. */
  function IsoYear(n: Day): (y: int)
    ensures DaysBeforeYear(y) - 3 <= n < DaysBeforeYear(y + 1) + 3
  {
    YearOf(IsoThursday(n))
  }

  /** The ISO year of a day is its civil year or one of the two neighbouring years. */
  lemma IsoYearNear(n: Day)
    ensures Year(n) - 1 <= IsoYear(n) <= Year(n) + 1
  {
    YearBounds(n);
    YearsNear(n, IsoThursday(n));
  }

  /** Days at most 3 apart lie in the same or in neighbouring years. */
  lemma YearsNear(n: Day, t: Day)
    requires n - 3 <= t <= n + 3
    ensures YearOf(n) - 1 <= YearOf(t) <= YearOf(n) + 1
  {
    var yn, yt := YearOf(n), YearOf(t);
    if yt >= yn + 2 {
      YearLength(yn + 1);
      YearsIncrease(yn + 2, yt);
      assert false;
    }
    if yn >= yt + 2 {
      YearLength(yt + 1);
      YearsIncrease(yt + 2, yn);
      assert false;
    }
  }

  /** `dt.isocalendar().week`: the ISO 8601 week number of day n. */
  function IsoWeek(n: Day): (w: int)
    ensures 1 <= w <= 53
  {
    var t := IsoThursday(n);
    YearLength(YearOf(t));
    (t - DaysBeforeYear(YearOf(t))) / 7 + 1
  }

  /**
   * The Monday that starts week 1 of ISO year y: the Monday of the week that
   * holds 4 January.
   */
  function Week1Monday(y: int): (m: Day)
    ensures Weekday(m) == 0
    ensures DaysBeforeYear(y) - 3 <= m <= DaysBeforeYear(y) + 3
  {
    var jan4 := DaysBeforeYear(y) + 3;
    WeekOf(jan4 / 7, 0);
    MondayOf(jan4)
  }

  lemma Week1MondaysIncrease(a: int, b: int)
    requires a < b
    ensures Week1Monday(a) < Week1Monday(b)
  {
    YearsIncrease(a, b);
  }

  lemma Week1MondaysMonotone(a: int, b: int)
    requires a <= b
    ensures Week1Monday(a) <= Week1Monday(b)
  {
    if a < b {
      Week1MondaysIncrease(a, b);
    }
  }

  /** An ISO year has 52 or 53 weeks. */
  lemma IsoYearWeeks(y: int)
    ensures Week1Monday(y + 1) - Week1Monday(y) == 7 * 52 || Week1Monday(y + 1) - Week1Monday(y) == 7 * 53
  {
    YearLength(y);
    var j := DaysBeforeYear(y) + 3;
    assert Week1Monday(y) == 7 * (j / 7);
    assert Week1Monday(y + 1) == 7 * ((j + 364 + (DaysInYear(y) - 364)) / 7);
    WeekSpan(j, DaysInYear(y) - 364);
  }

  /** The Mondays that start the weeks of days j and j + 365 or j + 366 are 52 or 53 weeks apart. */
  lemma WeekSpan(j: int, extra: int)
    requires 1 <= extra <= 2
    ensures 7 * ((j + 364 + extra) / 7) - 7 * (j / 7) == 7 * 52 || 7 * ((j + 364 + extra) / 7) - 7 * (j / 7) == 7 * 53
  {
    var q, r := j / 7, j % 7;
    if r + extra < 7 {
      DivUnique(j + 364 + extra, 7, q + 52, r + extra);
    } else {
      DivUnique(j + 364 + extra, 7, q + 53, r + extra - 7);
    }
  }

  /**
   * Week 1 of an ISO year is the week of the year's first Thursday: its
   * Thursday lies in the year, and no earlier day of the year is a Thursday.
   */
  lemma Week1HoldsFirstThursday(y: int)
    ensures DaysBeforeYear(y) <= Week1Monday(y) + 3 && Weekday(Week1Monday(y) + 3) == 3
    ensures forall t :: DaysBeforeYear(y) <= t < Week1Monday(y) + 3 ==> Weekday(t) != 3
  {
    var m := Week1Monday(y);
    var b := m / 7;
    WeekOf(b, 3);
    forall t | DaysBeforeYear(y) <= t < m + 3
      ensures Weekday(t) != 3
    {
      if t < m {
        WeekOf(b - 1, t - 7 * (b - 1));
      } else {
        WeekOf(b, t - 7 * b);
      }
    }
  }

  /**
   * IsoYear and IsoWeek agree with the ISO 8601 definition: n lies between
   * the Monday of week 1 of its ISO year and the Monday of week 1 of the next
   * one, and its week number counts the full weeks since the former, plus one.
   */
  lemma IsoWeekDefinition(n: Day)
    ensures Week1Monday(IsoYear(n)) <= n < Week1Monday(IsoYear(n) + 1)
    ensures IsoWeek(n) == (n - Week1Monday(IsoYear(n))) / 7 + 1
  {
    IsoWeekBetween(n);
    IsoWeekCount(n);
  }

  /** The first half of IsoWeekDefinition: n lies in the weeks of its ISO year. */
  lemma IsoWeekBetween(n: Day)
    ensures Week1Monday(IsoYear(n)) <= n < Week1Monday(IsoYear(n) + 1)
  {
    IsoThursdayIs(n);
    ThursdayInIsoYear(n);
    Week1MondayIs(IsoYear(n));
    Week1MondayIs(IsoYear(n) + 1);
    IsoWeekArith(n, n / 7, IsoThursday(n), DaysBeforeYear(IsoYear(n)), DaysBeforeYear(IsoYear(n) + 1),
                 Week1Monday(IsoYear(n)), Week1Monday(IsoYear(n) + 1));
  }

  /** The second half of IsoWeekDefinition: the week number counts weeks from week 1. */
  lemma IsoWeekCount(n: Day)
    ensures IsoWeek(n) == (n - Week1Monday(IsoYear(n))) / 7 + 1
  {
    IsoThursdayIs(n);
    ThursdayInIsoYear(n);
    Week1MondayIs(IsoYear(n));
    Week1MondayIs(IsoYear(n) + 1);
    IsoWeekArith(n, n / 7, IsoThursday(n), DaysBeforeYear(IsoYear(n)), DaysBeforeYear(IsoYear(n) + 1),
                 Week1Monday(IsoYear(n)), Week1Monday(IsoYear(n) + 1));
  }

  /** The Thursday of n's week, in terms of n's week number counted from day 0. */
  lemma IsoThursdayIs(n: Day)
    ensures 7 * (n / 7) <= n < 7 * (n / 7) + 7 && IsoThursday(n) == 7 * (n / 7) + 3
  {
  }

  /** That Thursday lies in the civil year IsoYear(n), and IsoWeek(n) counts its weeks from the year's start. */
  lemma ThursdayInIsoYear(n: Day)
    ensures DaysBeforeYear(IsoYear(n)) <= IsoThursday(n) < DaysBeforeYear(IsoYear(n) + 1)
    ensures IsoWeek(n) == (IsoThursday(n) - DaysBeforeYear(IsoYear(n))) / 7 + 1
  {
  }

  /** The Monday of week 1, in terms of the week number of 4 January counted from day 0. */
  lemma Week1MondayIs(y: int)
    ensures Week1Monday(y) == 7 * ((DaysBeforeYear(y) + 3) / 7)
  {
  }

  /**
   * The arithmetic of IsoWeekDefinition: when the Thursday t = 7a + 3 of the
   * week of n falls in the year of days s .. s1 - 1, n lies between the
   * Mondays m0 and m1 of the weeks of s + 3 and of s1 + 3, and counts the same number
   * of weeks from the former, m0, as t counts from s.
   */
  lemma IsoWeekArith(n: int, a: int, t: int, s: int, s1: int, m0: int, m1: int)
    ensures 7 * a <= n < 7 * a + 7 && t == 7 * a + 3 && s <= t < s1 &&
            m0 == 7 * ((s + 3) / 7) && m1 == 7 * ((s1 + 3) / 7) ==>
            m0 <= n < m1 && (t - s) / 7 == (n - m0) / 7
  {
    if 7 * a <= n < 7 * a + 7 && t == 7 * a + 3 && s <= t < s1 && m0 == 7 * ((s + 3) / 7) && m1 == 7 * ((s1 + 3) / 7) {
      var b, c := (s + 3) / 7, (s1 + 3) / 7;
      assert b <= a < c;
      DivUnique(t - s, 7, a - b, 7 * b + 3 - s);
      DivUnique(n - 7 * b, 7, a - b, n - 7 * a);
    }
  }

  /** Conversely, the ISO year and week of n are fixed by the pair of week-1 Mondays around it. */
  lemma IsoWeekUnique(n: Day, y: int)
    requires Week1Monday(y) <= n < Week1Monday(y + 1)
    ensures IsoYear(n) == y
    ensures IsoWeek(n) == (n - Week1Monday(y)) / 7 + 1
  {
    IsoWeekDefinition(n);
    IsoYearBetween(IsoYear(n), y, n);
  }

  /** At most one ISO year holds a given day. */
  lemma IsoYearBetween(a: int, b: int, n: Day)
    requires Week1Monday(a) <= n < Week1Monday(a + 1)
    requires Week1Monday(b) <= n < Week1Monday(b + 1)
    ensures a == b
  {
    Week1Order(a, b, n);
    Week1Order(b, a, n);
  }

  /** A day on or after the start of ISO year a and before the end of ISO year b has a <= b. */
  lemma Week1Order(a: int, b: int, n: Day)
    requires Week1Monday(a) <= n < Week1Monday(b + 1)
    ensures a <= b
  {
    if b < a {
      Week1MondaysMonotone(b + 1, a);
      assert false;
    }
  }

  /** Day n lies in the civil year Year(n). */
  lemma YearBounds(n: Day)
    ensures DaysBeforeYear(Year(n)) <= n < DaysBeforeYear(Year(n) + 1)
  {
    var c := CivilFromDays(n);
    assert DaysFromCivil(c) == n;
  }

  /** A day whose ISO year is the next civil year lies in week 1 of that ISO year. */
  lemma IsoYearAhead(n: Day)
    requires IsoYear(n) == Year(n) + 1
    ensures IsoWeek(n) == 1
    ensures Week1Monday(Year(n) + 1) <= n
  {
    YearBounds(n);
    IsoWeekDefinition(n);
  }

  /** A day of ISO week 1 lies in the first seven days from the Monday of week 1. */
  lemma IsoWeekOne(n: Day)
    requires IsoWeek(n) == 1
    ensures n < Week1Monday(IsoYear(n)) + 7
  {
    IsoWeekDefinition(n);
  }

  /** A day of ISO year z lies on or after the Monday of week 1 of z. */
  lemma IsoYearStart(n: Day, z: int)
    requires IsoYear(n) == z
    ensures Week1Monday(z) <= n
  {
    IsoWeekBetween(n);
  }

  /** A day of ISO week 1 of ISO year z lies before the Monday of week 2 of z. */
  lemma IsoWeekOneIn(n: Day, z: int)
    requires IsoYear(n) == z && IsoWeek(n) == 1
    ensures n < Week1Monday(z) + 7
  {
    IsoWeekOne(n);
  }

  /** Two days share their ISO year and ISO week exactly when they fall in the same Monday-to-Sunday week. */
  lemma IsoWeekSameWeek(a: Day, b: Day)
    ensures (IsoYear(a) == IsoYear(b) && IsoWeek(a) == IsoWeek(b)) <==> MondayOf(a) == MondayOf(b)
  {
    if MondayOf(a) == MondayOf(b) {
      assert IsoThursday(a) == IsoThursday(b);
    }
    if IsoYear(a) == IsoYear(b) && IsoWeek(a) == IsoWeek(b) {
      var w := Week1Monday(IsoYear(a));
      IsoWeekDefinition(a);
      IsoWeekDefinition(b);
      assert IsoWeek(a) == (a - w) / 7 + 1 && IsoWeek(b) == (b - w) / 7 + 1;
      SameWeekIndex(w, a, b);
    }
  }

  /** Two days the same number of full weeks after a Monday fall in the same Monday-to-Sunday week. */
  lemma SameWeekIndex(w: Day, a: Day, b: Day)
    requires Weekday(w) == 0 && w <= a && w <= b && (a - w) / 7 == (b - w) / 7
    ensures MondayOf(a) == MondayOf(b)
  {
    var q := w / 7 + (a - w) / 7;
    assert w == 7 * (w / 7);
    assert 7 * q <= a < 7 * q + 7;
    assert 7 * q <= b < 7 * q + 7;
    WeekOf(q, a - 7 * q);
    WeekOf(q, b - 7 * q);
  }

  /**
   * A day of ISO week 1 of its own year and a day of the same calendar year
   * that already belongs to the next ISO year are at least 358 days apart.
   */
  lemma IsoWeekOneOfNextYear(x: Day, y: Day)
    requires IsoYear(x) == Year(x) && IsoWeek(x) == 1
    requires Year(y) == Year(x) && IsoYear(y) == Year(x) + 1
    ensures y - x >= 358
  {
    var yr := Year(x);
    var w0, w1 := Week1Monday(yr), Week1Monday(yr + 1);
    IsoWeekOneIn(x, yr);
    IsoYearStart(y, yr + 1);
    assert w1 - w0 >= 364 by {
      IsoYearWeeks(yr);
    }
    WeekOneGap(x, y, w0, w1);
  }

  /** A day before w0 + 7 and a day from w1 on, with w1 at least 52 weeks after w0. */
  lemma WeekOneGap(x: int, y: int, w0: int, w1: int)
    requires x < w0 + 7 && w1 <= y && w1 - w0 >= 364
    ensures y - x >= 358
  {
  }
}
