/** The civil-date arithmetic behind layer timestamps (image.rs).

    `CivilFromDays` is the closed formula of image.rs. Its references are independent of it: the
    Gregorian leap rule (Appendix C of RFC 3339), the successor of a date, and a day count that
    adds up year and month lengths.
 */
module Calendar {
  datatype Date = Date(year: int, month: int, day: int)

  // ---- the reference calendar ---------------------------------------------------------------------

  predicate IsLeap(y: int) { y % 4 == 0 && (y % 100 != 0 || y % 400 == 0) }

  function DaysIn(y: int, m: int): int {
    if m == 2 then (if IsLeap(y) then 29 else 28)
    else if m == 4 || m == 6 || m == 9 || m == 11 then 30
    else 31
  }

  predicate ValidDate(d: Date) {
    1 <= d.month <= 12 && 1 <= d.day <= DaysIn(d.year, d.month)
  }

  function NextDay(d: Date): Date {
    if d.day < DaysIn(d.year, d.month) then d.(day := d.day + 1)
    else if d.month < 12 then Date(d.year, d.month + 1, 1)
    else Date(d.year + 1, 1, 1)
  }

  predicate Before(a: Date, b: Date) {
    a.year < b.year || (a.year == b.year && (a.month < b.month || (a.month == b.month && a.day < b.day)))
  }

  function YearLength(y: int): int { if IsLeap(y) then 366 else 365 }

  /** The day number of 1 January, adding up year lengths from 1970. */
  function YearStart(y: int): int
    decreases if y >= 1970 then y - 1970 else 1970 - y
  {
    if y == 1970 then 0
    else if y > 1970 then YearStart(y - 1) + YearLength(y - 1)
    else YearStart(y + 1) - YearLength(y)
  }

  /** Days of the year before month `m`. */
  function MonthStart(y: int, m: nat): int {
    if m <= 1 then 0 else MonthStart(y, m - 1) + DaysIn(y, m - 1)
  }

  /** Days since 1 January 1970. */
  function DayNumber(d: Date): int
    requires ValidDate(d)
  {
    YearStart(d.year) + MonthStart(d.year, d.month) + d.day - 1
  }

  // ---- the formula ------------------------------------------------------------------------------------

  /** Integer division that truncates toward zero. */
  function TruncDiv(a: int, b: int): int
    requires b > 0
  {
    if a >= 0 then a / b else -((-a) / b)
  }

  function Era(z: int): int {
    TruncDiv(if z >= 0 then z else z - 146096, 146097)
  }

  function YearOfEra(doe: int): int
  {
    (doe - doe / 1460 + doe / 36524 - doe / 146096) / 365
  }

  /** Day `doy` of the year that began on 1 March of year `y`. */
  function FromMarch(y: int, doy: int): Date {
    var mp := (5 * doy + 2) / 153;
    var day := doy - MarchMonth(mp) + 1;
    var month := if mp < 10 then mp + 3 else mp - 9;
    Date(if month <= 2 then y + 1 else y, month, day)
  }

  function CivilFromDays(days: int): Date {
    var z := days + 719468;
    var era := Era(z);
    var doe := z - era * 146097;
    var yoe := YearOfEra(doe);
    FromMarch(yoe + era * 400, doe - MarchStart(yoe))
  }

  // ---- years ---------------------------------------------------------------------------------------------

  /** Leap days up to and including year `n`. */
  function Leaps(n: int): int { n / 4 - n / 100 + n / 400 }

  lemma LeapStep(y: int)
    ensures Leaps(y) - Leaps(y - 1) == if IsLeap(y) then 1 else 0
  {
    DivStep(y, 4);
    DivStep(y, 100);
    DivStep(y, 400);
  }

  lemma DivStep(y: int, k: int)
    requires k == 4 || k == 100 || k == 400
    ensures y / k - (y - 1) / k == if y % k == 0 then 1 else 0
  {
  }

  lemma {:induction false} YearStartClosed(y: int)
    ensures YearStart(y) == 365 * (y - 1970) + Leaps(y - 1) - Leaps(1969)
    decreases if y >= 1970 then y - 1970 else 1970 - y
  {
    hide Leaps;
    if y > 1970 {
      YearStartClosed(y - 1);
      LeapStep(y - 1);
    } else if y < 1970 {
      YearStartClosed(y + 1);
      LeapStep(y);
    }
  }

  /** Day of a 400-year era on which March-based year `yoe` begins. */
  function MarchStart(yoe: int): int { 365 * yoe + yoe / 4 - yoe / 100 }

  // A day of an era lies `doy` days into year 100c + 4q + r of it.
  predicate InYear(c: int, q: int, r: int, doy: int) {
    && 0 <= c <= 3 && 0 <= q <= 24 && 0 <= r <= 3 && 0 <= doy <= 365
    && (doy == 365 ==> r == 3 && (q < 24 || c == 3))
  }

  lemma Quotients(c: int, q: int, r: int, doy: int)
    requires InYear(c, q, r, doy)
    ensures var doe, t := 36524 * c + 1461 * q + 365 * r + doy, (24 * c + q + 365 * r + doy) / 1460;
            && doe / 36524 - doe / 146096 == c && doe / 1460 == 25 * c + q + t
            && 0 <= doy - t < 365
  {
  }

  /** The year-of-era formula finds the year. */
  lemma EraYear(c: int, q: int, r: int, doy: int)
    requires InYear(c, q, r, doy)
    ensures MarchStart(100 * c + 4 * q + r) == 36524 * c + 1461 * q + 365 * r
    ensures YearOfEra(36524 * c + 1461 * q + 365 * r + doy) == 100 * c + 4 * q + r
  {
    Quotients(c, q, r, doy);
  }

  lemma SplitEra(doe: int) returns (c: int, q: int, r: int, doy: int)
    requires 0 <= doe <= 146096
    ensures InYear(c, q, r, doy) && doe == 36524 * c + 1461 * q + 365 * r + doy
  {
    c := if doe == 146096 then 3 else doe / 36524;
    var e := doe - 36524 * c;
    q := if e == 36524 then 24 else e / 1461;
    var f := e - 1461 * q;
    r := if f == 1460 then 3 else f / 365;
    doy := f - 365 * r;
  }

  lemma EraFloor(z: int)
    ensures 0 <= z - Era(z) * 146097 <= 146096
  {
  }

  // 1 March of March-based year `yoe` of an era, counted from 1970.
  lemma MarchFirst(era: int, yoe: int)
    requires 0 <= yoe <= 399
    ensures var y := yoe + era * 400;
            YearStart(y) + 59 + (if IsLeap(y) then 1 else 0) == era * 146097 + MarchStart(yoe) - 719468
  {
    hide YearStart, IsLeap;
    var y := yoe + era * 400;
    YearStartClosed(y);
    LeapStep(y);
    LeapsOfEra(era, yoe);
  }

  lemma LeapsOfEra(era: int, yoe: int)
    requires 0 <= yoe <= 399
    ensures Leaps(yoe + era * 400) == 97 * era + yoe / 4 - yoe / 100
  {
    var y := yoe + era * 400;
    assert y / 4 == yoe / 4 + 100 * era;
    assert y / 100 == yoe / 100 + 4 * era;
    assert y / 400 == era;
  }

  // A March-based year has a 366th day only when it ends in a leap February.
  lemma LastDay(era: int, c: int, q: int, r: int)
    requires InYear(c, q, r, 365)
    ensures IsLeap(100 * c + 4 * q + r + era * 400 + 1)
  {
  }

  // ---- months -----------------------------------------------------------------------------------------------

  /** Month `mp` after March begins this many days after 1 March. */
  function MarchMonth(mp: int): int { (153 * mp + 2) / 5 }

  lemma MonthOfDay(doy: int)
    requires 0 <= doy <= 365
    ensures var mp := (5 * doy + 2) / 153; 0 <= mp <= 11 && MarchMonth(mp) <= doy < MarchMonth(mp + 1)
  {
  }

  lemma MonthStarts(y: int)
    ensures MonthStart(y, 1) == 0 && MonthStart(y, 2) == 31
    ensures var leap := if IsLeap(y) then 1 else 0;
            && MonthStart(y, 3) == 59 + leap && MonthStart(y, 4) == 90 + leap && MonthStart(y, 5) == 120 + leap
            && MonthStart(y, 6) == 151 + leap && MonthStart(y, 7) == 181 + leap && MonthStart(y, 8) == 212 + leap
            && MonthStart(y, 9) == 243 + leap && MonthStart(y, 10) == 273 + leap && MonthStart(y, 11) == 304 + leap
            && MonthStart(y, 12) == 334 + leap && MonthStart(y, 13) == 365 + leap
  {
    hide IsLeap;
  }

  // March to December: the month found is that of the same calendar year.
  lemma SpringMonths(y: int, doy: int)
    requires 0 <= doy <= 365 && (5 * doy + 2) / 153 < 10
    ensures var mp := (5 * doy + 2) / 153;
            && ValidDate(Date(y, mp + 3, doy - MarchMonth(mp) + 1))
            && MonthStart(y, mp + 3) == 59 + (if IsLeap(y) then 1 else 0) + MarchMonth(mp)
  {
    hide IsLeap, MonthStart;
    MonthOfDay(doy);
    MonthStarts(y);
  }

  // January and February: those of the next one.
  lemma WinterMonths(y: int, doy: int)
    requires 0 <= doy <= 365 && (5 * doy + 2) / 153 >= 10 && (doy == 365 ==> IsLeap(y + 1))
    ensures var mp := (5 * doy + 2) / 153;
            && mp <= 11 && ValidDate(Date(y + 1, mp - 9, doy - MarchMonth(mp) + 1))
            && MonthStart(y + 1, mp - 9) == MarchMonth(mp) - 306
  {
    hide IsLeap, MonthStart;
    MonthOfDay(doy);
    MonthStarts(y + 1);
  }

  // ---- the theorem --------------------------------------------------------------------------------------------

  /** For every day number the formula yields a Gregorian date, and the one with that number. */
  lemma CivilExact(days: int)
    ensures ValidDate(CivilFromDays(days)) && DayNumber(CivilFromDays(days)) == days
  {
    hide IsLeap, YearStart, YearOfEra, Era, DayNumber, ValidDate, FromMarch, MarchStart;
    var z := days + 719468;
    EraFloor(z);
    var era := Era(z);
    var c, q, r, doy := SplitEra(z - era * 146097);
    EraYear(c, q, r, doy);
    var yoe := 100 * c + 4 * q + r;
    MarchFirst(era, yoe);
    if doy == 365 { LastDay(era, c, q, r); }
    FromMarchExact(yoe + era * 400, doy);
  }

  lemma FromMarchExact(y: int, doy: int)
    requires 0 <= doy <= 365 && (doy == 365 ==> IsLeap(y + 1))
    ensures ValidDate(FromMarch(y, doy))
    ensures DayNumber(FromMarch(y, doy)) == YearStart(y) + 59 + (if IsLeap(y) then 1 else 0) + doy
  {
    hide IsLeap, YearStart, MonthStart, DaysIn, MarchMonth;
    if (5 * doy + 2) / 153 < 10 {
      MonthOfDay(doy);
      SpringMonths(y, doy);
    } else {
      WinterMonths(y, doy);
      NextYear(y);
    }
  }

  lemma NextYear(y: int)
    ensures YearStart(y + 1) == YearStart(y) + YearLength(y)
  {
  }

  /** The ranges the comments and checked conversions of image.rs claim. */
  lemma CivilBounds(days: int)
    ensures var z := days + 719468;
            var doe := z - Era(z) * 146097;
            var yoe := YearOfEra(doe);
            var doy := doe - MarchStart(yoe);
            && 0 <= doe <= 146096 && 0 <= yoe <= 399 && 0 <= doy <= 365 && 0 <= (5 * doy + 2) / 153 <= 11
    ensures 1 <= CivilFromDays(days).month <= 12 && 1 <= CivilFromDays(days).day <= 31
  {
    CivilExact(days);
    hide YearOfEra, Era, MarchStart, CivilFromDays;
    EraFloor(days + 719468);
    var c, q, r, doy := SplitEra(days + 719468 - Era(days + 719468) * 146097);
    EraYear(c, q, r, doy);
    MonthOfDay(doy);
  }

  // ---- order ----------------------------------------------------------------------------------------------------

  lemma {:induction false} YearsGrow(y: int, y': int)
    requires y < y'
    ensures YearStart(y) + YearLength(y) <= YearStart(y')
    decreases y' - y
  {
    hide YearLength;
    NextYear(y' - 1);
    if y < y' - 1 {
      YearsGrow(y, y' - 1);
      assert YearLength(y' - 1) >= 0 by { YearPositive(y' - 1); }
    }
  }

  lemma YearPositive(y: int)
    ensures YearLength(y) >= 365
  {
  }

  lemma {:induction false} MonthsGrow(y: int, m: nat, m': nat)
    requires 1 <= m < m'
    ensures MonthStart(y, m) + DaysIn(y, m) <= MonthStart(y, m')
    decreases m' - m
  {
    hide IsLeap;
    if m < m' - 1 { MonthsGrow(y, m, m' - 1); }
  }

  /** The day count orders dates as the calendar does. */
  lemma DayNumberOrders(a: Date, b: Date)
    requires ValidDate(a) && ValidDate(b) && Before(a, b)
    ensures DayNumber(a) < DayNumber(b)
  {
    hide IsLeap, YearStart, DaysIn, MonthStart;
    MonthsGrow(a.year, a.month, 13);
    MonthStarts(a.year);
    MonthFrom(b.year, b.month);
    if a.year < b.year {
      YearsGrow(a.year, b.year);
    } else if a.month < b.month {
      MonthsGrow(a.year, a.month, b.month);
    }
  }

  lemma MonthFrom(y: int, m: nat)
    requires 1 <= m
    ensures MonthStart(y, m) >= 0
  {
    hide IsLeap;
    if m > 1 { MonthsGrow(y, 1, m); }
  }

  /** Every Gregorian date comes back from its day number: the formula inverts the day count. */
  lemma CivilInverts(d: Date)
    requires ValidDate(d)
    ensures CivilFromDays(DayNumber(d)) == d
  {
    hide IsLeap, YearStart, DaysIn, MonthStart, CivilFromDays, DayNumber;
    var d' := CivilFromDays(DayNumber(d));
    CivilExact(DayNumber(d));
    if Before(d, d') {
      DayNumberOrders(d, d');
    } else if Before(d', d) {
      DayNumberOrders(d', d);
    }
  }

  /** Later days give later dates. */
  lemma CivilIncreases(a: int, b: int)
    requires a < b
    ensures Before(CivilFromDays(a), CivilFromDays(b))
  {
    hide IsLeap, YearStart, DaysIn, MonthStart, CivilFromDays, DayNumber;
    CivilExact(a);
    CivilExact(b);
    var d, d' := CivilFromDays(a), CivilFromDays(b);
    if !Before(d, d') && d != d' { DayNumberOrders(d', d); }
  }

  /** The epoch, and one day at a time from there. */
  lemma CivilSteps(days: int)
    ensures CivilFromDays(0) == Date(1970, 1, 1)
    ensures CivilFromDays(days + 1) == NextDay(CivilFromDays(days))
  {
    hide IsLeap, YearStart, DaysIn, MonthStart, CivilFromDays, DayNumber, NextDay;
    var d := CivilFromDays(days);
    CivilExact(days);
    NextDayNumber(d);
    CivilInverts(NextDay(d));
    Epoch();
  }

  lemma Epoch()
    ensures CivilFromDays(0) == Date(1970, 1, 1)
  {
    hide CivilFromDays;
    assert DayNumber(Date(1970, 1, 1)) == 0;
    CivilInverts(Date(1970, 1, 1));
  }

  lemma NextDayNumber(d: Date)
    requires ValidDate(d)
    ensures ValidDate(NextDay(d)) && DayNumber(NextDay(d)) == DayNumber(d) + 1
  {
    hide IsLeap, YearStart;
    MonthStarts(d.year);
    NextYear(d.year);
  }

  // ---- the time of day ---------------------------------------------------------------------------------------------

  datatype Instant = Instant(date: Date, hour: int, minute: int, second: int)

  function FromUnix(secs: nat): Instant {
    var rem := secs % 86400;
    Instant(CivilFromDays(secs / 86400), rem / 3600, rem % 3600 / 60, rem % 60)
  }

  /** A timestamp's fields are in range and stand for exactly that second. */
  lemma FromUnixExact(secs: nat)
    ensures var t := FromUnix(secs);
            && ValidDate(t.date) && 0 <= t.hour < 24 && 0 <= t.minute < 60 && 0 <= t.second < 60
            && DayNumber(t.date) * 86400 + t.hour * 3600 + t.minute * 60 + t.second == secs
  {
    hide CivilFromDays, DayNumber, ValidDate;
    CivilExact(secs / 86400);
    TimeOfDay(secs % 86400);
  }

  lemma TimeOfDay(rem: nat)
    requires rem < 86400
    ensures 0 <= rem / 3600 < 24 && 0 <= rem % 3600 / 60 < 60
    ensures rem / 3600 * 3600 + rem % 3600 / 60 * 60 + rem % 60 == rem
  {
  }
}
