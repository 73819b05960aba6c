/** Wall-clock moments in nanoseconds from Monday 1 January of year 1, and Go's calendar arithmetic on them. */
module Calendar {
  import opened Arithmetic

  type Wall = nat

  const HOUR: int := 3_600_000_000_000
  const DAY: int := 24 * HOUR
  const WEEK: int := 7 * DAY

  predicate LeapYear(year: nat) {
    year % 4 == 0 && (year % 100 != 0 || year % 400 == 0)
  }

  /** The days of month k, counted from January of year 1. */
  function MonthLength(k: nat): (days: nat)
    ensures 28 <= days <= 31
  {
    match k % 12
    case 1 => if LeapYear(k / 12 + 1) then 29 else 28
    case 3 => 30
    case 5 => 30
    case 8 => 30
    case 10 => 30
    case _ => 31
  }

  /** The first moment of month k. */
  function MonthStart(k: nat): Wall {
    if k == 0 then 0 else MonthStart(k - 1) + MonthLength(k - 1) * DAY
  }

  /** The month a moment lies in, searched from month k up. */
  function MonthFrom(t: Wall, k: nat): (m: nat)
    requires MonthStart(k) <= t
    ensures MonthStart(m) <= t < MonthStart(m + 1)
    decreases t - MonthStart(k)
  {
    if t < MonthStart(k + 1) then k else MonthFrom(t, k + 1)
  }

  function MonthOf(t: Wall): (m: nat)
    ensures MonthStart(m) <= t < MonthStart(m + 1)
  {
    MonthFrom(t, 0)
  }

  /**
   * t.AddDate(0, m, 0): the same day number and time of day in the month m on, days past that month's end running into
   * the next.
   */
  function AddMonths(t: Wall, m: nat): Wall {
    MonthStart(MonthOf(t) + m) + (t - MonthStart(MonthOf(t)))
  }

  lemma {:induction false} AddMonthsIncreases(t: Wall, m: nat, n: nat)
    requires m <= n
    ensures AddMonths(t, m) + (n - m) <= AddMonths(t, n)
    decreases n - m
  {
    if m < n {
      AddMonthsIncreases(t, m, n - 1);
    }
  }

  // ---------- Weekends

  datatype Weekday = Monday | Tuesday | Wednesday | Thursday | Friday | Saturday | Sunday

  function WeekdayOf(t: Wall): Weekday {
    match t / DAY % 7
    case 0 => Monday
    case 1 => Tuesday
    case 2 => Wednesday
    case 3 => Thursday
    case 4 => Friday
    case 5 => Saturday
    case _ => Sunday
  }

  function HourOf(t: Wall): nat {
    t % DAY / HOUR
  }

  /** Whether a period starts on a Friday at 12:00 or later and ends by the following Monday at 12:00. */
  predicate InOneWeekend(from: Wall, to: int) {
    match WeekdayOf(from)
    case Friday => HourOf(from) >= 12 && to <= MondayNoon(from)
    case Saturday => to <= MondayNoon(from - DAY)
    case Sunday => to <= MondayNoon(from - 2 * DAY)
    case _ => false
  }

  /** Noon three days after the day of a Friday. */
  function MondayNoon(friday: int): int {
    friday / DAY * DAY + 3 * DAY + 12 * HOUR
  }

  /**
   * The weekend's bounds, read independently of the day the period starts on: Friday noon, Sunday midnight, Monday
   * noon.
   */
  lemma WeekendBounds(from: Wall, to: int)
    ensures InOneWeekend(from, to) <==>
            var monday := from / WEEK * WEEK;
            from >= monday + 4 * DAY + 12 * HOUR && to <= monday + WEEK + 12 * HOUR
  {
    var d, s := from / DAY, from % DAY;
    var w, r := d / 7, d % 7;
    WeekOf(from, w, r, s);
    AfterNoon(s);
    DaysBack(from, d, s);
    hide HourOf, MondayNoon;
  }

  lemma WeekOf(from: Wall, w: nat, r: nat, s: nat)
    requires from == (7 * w + r) * DAY + s && r < 7 && s < DAY
    ensures from / WEEK * WEEK == w * WEEK && from == w * WEEK + r * DAY + s
  {
    assert r * DAY + s < WEEK;
    Quotient(from, WEEK, w, r * DAY + s);
  }

  lemma AfterNoon(s: nat)
    ensures s / HOUR >= 12 <==> s >= 12 * HOUR
  {}

  /** The Friday of a weekend's Friday, Saturday and Sunday, and the noon of its Monday. */
  lemma DaysBack(from: Wall, d: nat, s: nat)
    requires from == d * DAY + s && s < DAY
    ensures MondayNoon(from) == (d + 3) * DAY + 12 * HOUR
    ensures MondayNoon(from - DAY) == (d + 2) * DAY + 12 * HOUR
    ensures MondayNoon(from - 2 * DAY) == (d + 1) * DAY + 12 * HOUR
  {
    Quotient(from, DAY, d, s);
    Quotient(from - DAY, DAY, d - 1, s);
    Quotient(from - 2 * DAY, DAY, d - 2, s);
  }

  /** A Saturday start is accepted, though the rule is said to be about Fridays. */
  lemma SaturdayStart()
    ensures WeekdayOf(5 * DAY) == Saturday && InOneWeekend(5 * DAY, WEEK) && !InOneWeekend(5 * DAY, WEEK + 13 * HOUR)
  {}

  // ---------- The calendar against a closed day count

  /** The days before the March of a year, counted from the year 1 as 0, in the usual leap years. */
  function DaysToMarch(year: nat): nat {
    365 * year + 59 + (year + 1) / 4 - (year + 1) / 100 + (year + 1) / 400
  }

  /** The days before a month, the year beginning in March: 153 days every five months. */
  function DaysBefore(year: nat, month: nat): nat {
    DaysToMarch(year) + (153 * month + 2) / 5
  }

  lemma LengthInYear(year: nat, month: nat)
    requires month < 12
    ensures MonthLength(12 * year + 2 + month) ==
            if month == 11 then (if LeapYear(year + 2) then 29 else 28)
            else (153 * (month + 1) + 2) / 5 - (153 * month + 2) / 5
  {
    var k := 12 * year + 2 + month;
    assert k % 12 == (month + 2) % 12 && k / 12 == year + (month + 2) / 12;
    if month == 0 {} else if month == 1 {} else if month == 2 {} else if month == 3 {} else if month == 4 {}
    else if month == 5 {} else if month == 6 {} else if month == 7 {} else if month == 8 {} else if month == 9 {}
    else if month == 10 {} else {}
  }

  lemma YearGrows(year: nat)
    ensures DaysToMarch(year + 1) == DaysToMarch(year) + 337 + (if LeapYear(year + 2) then 29 else 28)
  {
    var y := year + 2;
    DividedUp(y, 4);
    DividedUp(y, 100);
    DividedUp(y, 400);
    Hundreds(y);
  }

  lemma DividedUp(y: nat, d: nat)
    requires y > 0 && d > 1
    ensures y / d == (y - 1) / d + (if y % d == 0 then 1 else 0)
  {
    var q, r := (y - 1) / d, (y - 1) % d;
    DivisionLaw(y - 1, d);
    if r == d - 1 {
      TimesSum(q, 1, d);
      Quotient(y, d, q + 1, 0);
    } else {
      Quotient(y, d, q, r + 1);
    }
  }

  lemma Hundreds(y: nat)
    ensures y % 400 == 0 ==> y % 100 == 0
    ensures y % 100 == 0 ==> y % 4 == 0
  {
    DivisionLaw(y, 400);
    DivisionLaw(y, 100);
    if y % 400 == 0 {
      Quotient(y, 100, 4 * (y / 400), 0);
    }
    if y % 100 == 0 {
      Quotient(y, 4, 25 * (y / 100), 0);
    }
  }

  lemma NextInYear(year: nat, month: nat)
    requires month < 11
    ensures DaysBefore(year, month + 1) == DaysBefore(year, month) + MonthLength(12 * year + 2 + month)
  {
    LengthInYear(year, month);
    hide MonthLength, DaysToMarch;
  }

  lemma NextYear(year: nat)
    ensures DaysBefore(year + 1, 0) == DaysBefore(year, 11) + MonthLength(12 * year + 13)
  {
    LengthInYear(year, 11);
    YearGrows(year);
    hide MonthLength, DaysToMarch, LeapYear;
  }

  lemma FirstMarch()
    ensures DaysBefore(0, 0) == 59 && MonthStart(2) == 59 * DAY
  {
    OneMonthOn(1);
    OneMonthOn(2);
    hide MonthStart;
    TimesSum(31, 28, DAY);
  }

  /** Every month begins where the closed day count says. */
  lemma {:induction false} MonthBegins(year: nat, month: nat)
    requires month < 12
    ensures MonthStart(12 * year + 2 + month) == DaysBefore(year, month) * DAY
    decreases year, month
  {
    hide MonthStart, MonthLength, DaysBefore;
    if month > 0 {
      MonthBegins(year, month - 1);
      NextInYear(year, month - 1);
      OneMonthOn(12 * year + 2 + month);
      TimesSum(DaysBefore(year, month - 1), MonthLength(12 * year + 1 + month), DAY);
    } else if year > 0 {
      MonthBegins(year - 1, 11);
      NextYear(year - 1);
      OneMonthOn(12 * year + 2);
      TimesSum(DaysBefore(year - 1, 11), MonthLength(12 * year + 1), DAY);
    } else {
      FirstMarch();
    }
  }

  lemma OneMonthOn(k: nat)
    requires k > 0
    ensures MonthStart(k) == MonthStart(k - 1) + MonthLength(k - 1) * DAY
    ensures k == 1 ==> MonthStart(0) == 0 && MonthLength(0) == 31
    ensures k == 2 ==> MonthLength(1) == 28
  {}

  lemma Midweek(days: nat)
    requires days % 7 == 2
    ensures WeekdayOf(days * DAY) == Wednesday
  {
    Quotient(days * DAY, DAY, days, 0);
  }

  lemma MarchOf2000()
    ensures DaysBefore(1999, 0) == 730179
  {}

  /** The days are named right: 1 March 2000 was a Wednesday. */
  lemma NamedDay()
    ensures WeekdayOf(MonthStart(12 * 1999 + 2)) == Wednesday
  {
    hide MonthStart, WeekdayOf, DaysBefore;
    MonthBegins(1999, 0);
    MarchOf2000();
    Midweek(730179);
  }

  /** Any number of months on is the same day number and time of day, counted from that month's first day. */
  lemma MonthsOn(year: nat, month: nat, day: nat, time: nat, m: nat, year': nat, month': nat)
    requires month < 12 && month' < 12 && 12 * year' + month' == 12 * year + month + m
    requires day < MonthLength(12 * year + 2 + month) && time < DAY
    ensures AddMonths((DaysBefore(year, month) + day) * DAY + time, m) ==
            (DaysBefore(year', month') + day) * DAY + time
  {
    hide MonthStart, MonthLength, DaysBefore, MonthOf;
    var k, t := 12 * year + 2 + month, (DaysBefore(year, month) + day) * DAY + time;
    MonthBegins(year, month);
    MonthBegins(year', month');
    OneMonthOn(k + 1);
    TimesSum(DaysBefore(year, month), day, DAY);
    TimesSum(DaysBefore(year', month'), day, DAY);
    StepUp(day, MonthLength(k), DAY);
    InMonth(t, k);
  }

  lemma InMonth(t: Wall, k: nat)
    requires MonthStart(k) <= t < MonthStart(k + 1)
    ensures MonthOf(t) == k
  {
    var m := MonthOf(t);
    hide MonthStart, MonthOf;
    if m < k {
      MonthsAscend(m + 1, k);
    } else if k < m {
      MonthsAscend(k + 1, m);
    }
  }

  lemma {:induction false} MonthsAscend(j: nat, k: nat)
    requires j <= k
    ensures MonthStart(j) <= MonthStart(k)
  {
    if j < k {
      MonthsAscend(j, k - 1);
      NotNegative(MonthLength(k - 1), DAY);
    }
  }
}
