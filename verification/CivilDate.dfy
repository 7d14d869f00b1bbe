/** Civil dates from epoch seconds and back. */
module CivilDate {

  datatype Date = Date(year: int, month: int, day: int)

  // ----- the proleptic Gregorian calendar

  predicate IsLeap(y: int) { y % 4 == 0 && (y % 100 != 0 || y % 400 == 0) }

  function DaysInMonth(y: int, m: int): int
    requires 1 <= m <= 12
  {
    if m == 2 then (if IsLeap(y) then 29 else 28)
    else if m == 4 || m == 6 || m == 9 || m == 11 then 30
    else 31
  }

  predicate Valid(d: Date) {
    1 <= d.month <= 12 && 1 <= d.day <= DaysInMonth(d.year, d.month)
  }

  function NextDay(d: Date): (n: Date)
    requires Valid(d)
    ensures Valid(n)
  {
    if d.day < DaysInMonth(d.year, d.month) then d.(day := d.day + 1)
    else if d.month < 12 then Date(d.year, d.month + 1, 1)
    else Date(d.year + 1, 1, 1)
  }

  // ----- the two conversions

  /** Truncating division by 400. */
  function TruncDiv400(n: int): int { if n >= 0 then n / 400 else -((-n) / 400) }

  /** `days_from_civil`. */
  function DaysFromCivil(year: int, month: int, day: int): int {
    var y := year - (if month <= 2 then 1 else 0);
    var era := TruncDiv400(if y >= 0 then y else y - 399);
    var yoe := y - era * 400;
    var doy := (153 * (month + if month > 2 then -3 else 9) + 2) / 5 + day - 1;
    era * 146097 + (yoe * 365 + yoe / 4 - yoe / 100 + doy) - 719468
  }

  function YearOfEra(doe: int): int {
    (doe - doe / 1460 + doe / 36524 - doe / 146096) / 365
  }

  function YearStart(yoe: int): int { 365 * yoe + yoe / 4 - yoe / 100 }

  /** The date arithmetic of `format_epoch_utc`, for a count of days since the epoch. */
  function CivilFromDays(days: int): Date {
    var z := days + 719468;
    var era := z / 146097;
    var doe := z - era * 146097;
    var yoe := YearOfEra(doe);
    var doy := doe - YearStart(yoe);
    var mp := (5 * doy + 2) / 153;
    var day := doy - (153 * mp + 2) / 5 + 1;
    var month := if mp < 10 then mp + 3 else mp - 9;
    Date(yoe + era * 400 + (if month <= 2 then 1 else 0), month, day)
  }

  // ----- years that begin in March

  /** Day `doy` of the March year `yoe` of an era; the leap day is the year's last. */
  predicate InEra(yoe: int, doy: int) {
    0 <= yoe < 400 && 0 <= doy < (if IsLeap(yoe + 1) then 366 else 365)
  }

  /** A century, a four-year cycle in it, a year in that, and a day. */
  lemma CycleYear(c: int, q: int, s: int, doy: int)
    requires 0 <= c < 4 && 0 <= q < 25 && 0 <= s < 4 && 0 <= doy <= 365
    requires doy == 365 ==> s == 3 && (q < 24 || c == 3)
    ensures YearOfEra(36524 * c + 1461 * q + 365 * s + doy) == 100 * c + 4 * q + s
    ensures 0 <= 36524 * c + 1461 * q + 365 * s + doy < 146097
  {
    var doe := 36524 * c + 1461 * q + 365 * s + doy;
    var low := 24 * c + q + 365 * s + doy;
    Quotient(doe, 1460, 25 * c + q + (if low >= 1460 then 1 else 0));
    var last := c == 3 && q == 24 && s == 3 && doy == 365;
    Quotient(doe, 36524, if last then 4 else c);
    Quotient(doe, 146096, if last then 1 else 0);
    var rest := doy - (if low >= 1460 then 1 else 0);
    assert 0 <= rest <= 364;
    Quotient(doe - doe / 1460 + doe / 36524 - doe / 146096, 365, 100 * c + 4 * q + s);
  }

  lemma Quotient(n: int, d: int, q: int)
    requires d > 0 && d * q <= n < d * q + d
    ensures n / d == q
  {
    var k := n / d;
    assert n == d * k + n % d;
    BelowOne(d, k - q);
    BelowOne(d, q - k);
  }

  lemma BelowOne(d: int, x: int)
    requires d > 0 && d * x < d
    ensures x < 1
  {
  }

  lemma YearParts(yoe: int)
    requires 0 <= yoe < 400
    ensures
      var c, q, s := yoe / 100, yoe % 100 / 4, yoe % 4;
      && yoe == 100 * c + 4 * q + s && 0 <= c < 4 && 0 <= q < 25 && 0 <= s < 4
      && YearStart(yoe) == 36524 * c + 1461 * q + 365 * s
      && (IsLeap(yoe + 1) <==> s == 3 && (q < 24 || c == 3))
  {
  }

  /** The year formula inverts the start-of-year formula. */
  lemma YearFound(yoe: int, doy: int)
    requires InEra(yoe, doy)
    ensures YearOfEra(YearStart(yoe) + doy) == yoe && 0 <= YearStart(yoe) + doy < 146097
  {
    YearParts(yoe);
    CycleYear(yoe / 100, yoe % 100 / 4, yoe % 4, doy);
  }

  /** Every day of an era is a day of one of its March years. */
  lemma EraCovered(doe: int) returns (yoe: int, doy: int)
    requires 0 <= doe < 146097
    ensures InEra(yoe, doy) && doe == YearStart(yoe) + doy
  {
    var c := if doe / 36524 > 3 then 3 else doe / 36524;
    var r := doe - 36524 * c;
    var q := if r / 1461 > 24 then 24 else r / 1461;
    var t := r - 1461 * q;
    var s := if t / 365 > 3 then 3 else t / 365;
    yoe, doy := 100 * c + 4 * q + s, t - 365 * s;
    YearParts(yoe);
    assert yoe / 100 == c && yoe % 100 / 4 == q && yoe % 4 == s;
  }

  /** Month and day from the day of the March year, and back. */
  lemma MonthFound(mp: int, day: int)
    requires 0 <= mp < 12 && 1 <= day <= (if mp == 1 || mp == 3 || mp == 6 || mp == 8 then 30 else if mp == 11 then 29 else 31)
    ensures
      var doy := (153 * mp + 2) / 5 + day - 1;
      && 0 <= doy <= 365 && (5 * doy + 2) / 153 == mp && (doy == 365 <==> mp == 11 && day == 29)
  {
  }

  lemma MonthCovered(doy: int)
    requires 0 <= doy <= 365
    ensures
      var mp := (5 * doy + 2) / 153;
      var day := doy - (153 * mp + 2) / 5 + 1;
      && 0 <= mp < 12
      && 1 <= day <= (if mp == 1 || mp == 3 || mp == 6 || mp == 8 then 30 else if mp == 11 then 29 else 31)
      && (mp == 11 && day == 29 <==> doy == 365)
  {
  }

  lemma FloorDiv400(y: int)
    ensures TruncDiv400(if y >= 0 then y else y - 399) == y / 400
  {
  }

  lemma Period4(y: int, k: int)
    ensures (y + 4 * k) % 4 == y % 4
  {
    assert y + 4 * k == 4 * (y / 4 + k) + y % 4;
  }

  lemma Period100(y: int, k: int)
    ensures (y + 100 * k) % 100 == y % 100
  {
    assert y + 100 * k == 100 * (y / 100 + k) + y % 100;
  }

  lemma Period400(y: int, k: int)
    ensures (y + 400 * k) % 400 == y % 400
  {
    assert y + 400 * k == 400 * (y / 400 + k) + y % 400;
  }

  lemma LeapPeriod(y: int, era: int)
    ensures IsLeap(y + era * 400) == IsLeap(y)
  {
    Period4(y, 100 * era);
    Period100(y, 4 * era);
    Period400(y, era);
  }

  // ----- the conversions are inverse

  /** The calendar date of a March year's day. */
  function MarchDate(era: int, yoe: int, doy: int): Date {
    var mp := (5 * doy + 2) / 153;
    var month := if mp < 10 then mp + 3 else mp - 9;
    Date(yoe + era * 400 + (if month <= 2 then 1 else 0), month, doy - (153 * mp + 2) / 5 + 1)
  }

  lemma CivilOfMarch(era: int, yoe: int, doy: int)
    requires InEra(yoe, doy)
    ensures CivilFromDays(era * 146097 + YearStart(yoe) + doy - 719468) == MarchDate(era, yoe, doy)
  {
    YearFound(yoe, doy);
    var z := era * 146097 + YearStart(yoe) + doy;
    assert z / 146097 == era;
  }

  lemma MarchDateValid(era: int, yoe: int, doy: int)
    requires InEra(yoe, doy)
    ensures Valid(MarchDate(era, yoe, doy))
  {
    MonthCovered(doy);
    LeapPeriod(yoe + 1, era);
  }

  lemma DaysOfMarch(era: int, yoe: int, doy: int)
    requires InEra(yoe, doy)
    ensures
      var d := MarchDate(era, yoe, doy);
      DaysFromCivil(d.year, d.month, d.day) == era * 146097 + YearStart(yoe) + doy - 719468
  {
    MonthCovered(doy);
    var y := yoe + era * 400;
    FloorDiv400(y);
    assert y / 400 == era;
  }

  /** Every valid date is a March year's day. */
  lemma MarchOf(d: Date) returns (era: int, yoe: int, doy: int)
    requires Valid(d)
    ensures InEra(yoe, doy) && MarchDate(era, yoe, doy) == d
  {
    var y := d.year - (if d.month <= 2 then 1 else 0);
    var mp := d.month + if d.month > 2 then -3 else 9;
    era, yoe, doy := y / 400, y % 400, (153 * mp + 2) / 5 + d.day - 1;
    MonthBounds(d, mp);
    MonthFound(mp, d.day);
    LeapPeriod(yoe + 1, era);
    assert yoe + 1 + era * 400 == y + 1;
  }

  lemma MonthBounds(d: Date, mp: int)
    requires Valid(d) && mp == d.month + if d.month > 2 then -3 else 9
    ensures 0 <= mp < 12 && 1 <= d.day <= (if mp == 1 || mp == 3 || mp == 6 || mp == 8 then 30 else if mp == 11 then 29 else 31)
    ensures mp == 11 && d.day == 29 ==> IsLeap(d.year) && d.month == 2
    ensures d.month == if mp < 10 then mp + 3 else mp - 9
  {
  }

  /** Every count of days has a valid date, and that date counts back to it. */
  lemma DaysRoundTrip(days: int)
    ensures Valid(CivilFromDays(days))
    ensures var d := CivilFromDays(days); DaysFromCivil(d.year, d.month, d.day) == days
  {
    var z := days + 719468;
    var era := z / 146097;
    var yoe, doy := EraCovered(z - era * 146097);
    CivilOfMarch(era, yoe, doy);
    MarchDateValid(era, yoe, doy);
    DaysOfMarch(era, yoe, doy);
  }

  /** Every valid date has a count of days, and that count gives the date back. */
  lemma DateRoundTrip(d: Date)
    requires Valid(d)
    ensures CivilFromDays(DaysFromCivil(d.year, d.month, d.day)) == d
  {
    var era, yoe, doy := MarchOf(d);
    DaysOfMarch(era, yoe, doy);
    CivilOfMarch(era, yoe, doy);
  }

  lemma YearLength(yoe: int)
    requires 0 <= yoe < 400
    ensures YearStart(yoe) + (if IsLeap(yoe + 1) then 366 else 365) == if yoe == 399 then 146097 else YearStart(yoe + 1)
  {
    YearParts(yoe);
    if yoe < 399 {
      YearParts(yoe + 1);
    }
  }

  /** The next calendar day is the next day of the March year, or the first of the next one. */
  lemma MarchAdvance(era: int, yoe: int, doy: int)
    requires InEra(yoe, doy)
    ensures Valid(MarchDate(era, yoe, doy))
    ensures NextDay(MarchDate(era, yoe, doy))
            == if InEra(yoe, doy + 1) then MarchDate(era, yoe, doy + 1)
               else if yoe < 399 then MarchDate(era, yoe + 1, 0)
               else MarchDate(era + 1, 0, 0)
  {
    MarchDateValid(era, yoe, doy);
    if InEra(yoe, doy + 1) {
      WithinMarchYear(era, yoe, doy);
    } else {
      LeapPeriod(yoe + 1, era);
    }
  }

  lemma WithinMarchYear(era: int, yoe: int, doy: int)
    requires InEra(yoe, doy) && InEra(yoe, doy + 1) && Valid(MarchDate(era, yoe, doy))
    ensures NextDay(MarchDate(era, yoe, doy)) == MarchDate(era, yoe, doy + 1)
  {
    MonthCovered(doy);
    MonthCovered(doy + 1);
    LeapPeriod(yoe + 1, era);
  }

  /** The day count advances by one from each date to the next. */
  lemma DaysAdvance(d: Date)
    requires Valid(d)
    ensures var n := NextDay(d); DaysFromCivil(n.year, n.month, n.day) == DaysFromCivil(d.year, d.month, d.day) + 1
  {
    var era, yoe, doy := MarchOf(d);
    MarchAdvance(era, yoe, doy);
    DaysOfMarch(era, yoe, doy);
    YearLength(yoe);
    if InEra(yoe, doy + 1) {
      DaysOfMarch(era, yoe, doy + 1);
    } else if yoe < 399 {
      DaysOfMarch(era, yoe + 1, 0);
    } else {
      DaysOfMarch(era + 1, 0, 0);
    }
  }

  lemma EpochIsDayZero()
    ensures CivilFromDays(0) == Date(1970, 1, 1)
  {
    assert DaysFromCivil(1970, 1, 1) == 0;
    DateRoundTrip(Date(1970, 1, 1));
  }

  /** So `format_epoch_utc` prints the Gregorian calendar: from 1970-01-01 on day 0, each day is followed by
      the next. */
  lemma CivilFollowsCalendar(days: int)
    ensures Valid(CivilFromDays(days)) && CivilFromDays(days + 1) == NextDay(CivilFromDays(days))
  {
    DaysRoundTrip(days);
    DayAfter(days, CivilFromDays(days));
  }

  lemma DayAfter(days: int, d: Date)
    requires Valid(d) && DaysFromCivil(d.year, d.month, d.day) == days
    ensures CivilFromDays(days + 1) == NextDay(d)
  {
    DaysAdvance(d);
    DateRoundTrip(NextDay(d));
  }
}
