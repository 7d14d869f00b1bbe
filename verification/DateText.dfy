/** Dates as text: what the command line prints, and the EXIF times a photo is dated by. Text is ASCII. */
module DateText {
  import opened Prelude
  import opened CivilDate

  predicate IsDigit(c: char) { '0' <= c <= '9' }

  function DigitOf(n: int): char
    requires 0 <= n < 10
  {
    '0' + n as char
  }

  function ValueOf(c: char): int
    requires IsDigit(c)
  {
    c as int - '0' as int
  }

  predicate AllDigits(s: string) { forall i :: 0 <= i < |s| ==> IsDigit(s[i]) }

  function Value(s: string): (n: nat)
    requires AllDigits(s)
  {
    if s == "" then 0 else Value(s[..|s| - 1]) * 10 + ValueOf(s[|s| - 1])
  }

  /** Integer parsing: an optional sign, then at least one digit. */
  function ParseInt(s: string): Option<int> {
    if s != "" && (s[0] == '-' || s[0] == '+') then
      if |s| > 1 && AllDigits(s[1..]) then Some(if s[0] == '-' then -(Value(s[1..]) as int) else Value(s[1..]))
      else None
    else if s != "" && AllDigits(s) then Some(Value(s))
    else None
  }

  function Decimal(n: nat): (s: string)
    ensures |s| > 0 && AllDigits(s)
  {
    if n < 10 then [DigitOf(n)] else Decimal(n / 10) + [DigitOf(n % 10)]
  }

  function Zeros(n: int): string { if n <= 0 then "" else Zeros(n - 1) + "0" }

  /** `{:0width}`: padded with zeros after the sign. */
  function FormatInt(n: int, width: nat): string {
    if n >= 0 then Zeros(width - |Decimal(n)|) + Decimal(n)
    else "-" + Zeros(width - 1 - |Decimal(-n)|) + Decimal(-n)
  }

  function DateString(d: Date): string {
    FormatInt(d.year, 4) + "-" + FormatInt(d.month, 2) + "-" + FormatInt(d.day, 2)
  }

  /** `format_epoch_utc`. */
  function FormatEpochUtc(secs: int): string { DateString(CivilFromDays(secs / 86400)) }

  /** The date arithmetic of `format_epoch`, which has its own copy. */
  function MonthAndDay(days: int): (int, int) {
    var doe := (days + 719468) % 146097;
    var yoe := (doe - doe / 1460 + doe / 36524 - doe / 146096) / 365;
    var doy := doe - (365 * yoe + yoe / 4 - yoe / 100);
    var mp := (5 * doy + 2) / 153;
    (if mp < 10 then mp + 3 else mp - 9, doy - (153 * mp + 2) / 5 + 1)
  }

  /** `format_epoch`. */
  function FormatEpoch(secs: int): string {
    var (m, d) := MonthAndDay(secs / 86400);
    var tod := secs % 86400;
    FormatInt(m, 2) + "-" + FormatInt(d, 2) + " " + FormatInt(tod / 3600, 2) + ":" + FormatInt(tod % 3600 / 60, 2)
  }

  lemma {:induction false} SameMonthAndDay(days: int)
    ensures MonthAndDay(days) == (CivilFromDays(days).month, CivilFromDays(days).day)
  {
    var z := days + 719468;
    EraRemainder(z);
    var doe := z % 146097;
    var doy := doe - YearStart(YearOfEra(doe));
    var mp := (5 * doy + 2) / 153;
    assert MonthAndDay(days) == (if mp < 10 then mp + 3 else mp - 9, doy - (153 * mp + 2) / 5 + 1);
  }

  lemma {:induction false} EraRemainder(z: int)
    ensures z - z / 146097 * 146097 == z % 146097
  {
  }

  /** Both printers print the calendar date of the day the second falls on, and the second one the hour and
      minute within it. */
  lemma {:induction false} PrintersAgree(secs: int) returns (d: Date, h: int, mi: int, s: int)
    ensures Valid(d) && DaysFromCivil(d.year, d.month, d.day) == secs / 86400
    ensures 0 <= h < 24 && 0 <= mi < 60 && 0 <= s < 60 && secs == secs / 86400 * 86400 + h * 3600 + mi * 60 + s
    ensures FormatEpochUtc(secs) == DateString(d)
    ensures FormatEpoch(secs)
            == FormatInt(d.month, 2) + "-" + FormatInt(d.day, 2) + " " + FormatInt(h, 2) + ":" + FormatInt(mi, 2)
  {
    d := CivilFromDays(secs / 86400);
    DaysRoundTrip(secs / 86400);
    SameMonthAndDay(secs / 86400);
    h, mi, s := TimeOfDay(secs);
  }

  lemma {:induction false} TimeOfDay(secs: int) returns (h: int, mi: int, s: int)
    ensures h == secs % 86400 / 3600 && mi == secs % 86400 % 3600 / 60
    ensures 0 <= h < 24 && 0 <= mi < 60 && 0 <= s < 60 && secs == secs / 86400 * 86400 + h * 3600 + mi * 60 + s
  {
    var tod := secs % 86400;
    h, mi, s := tod / 3600, tod % 3600 / 60, tod % 3600 % 60;
    assert secs == 86400 * (secs / 86400) + tod;
    assert tod == 3600 * h + tod % 3600;
    assert tod % 3600 == 60 * mi + s;
  }

  // ----- EXIF

  datatype Fields = Fields(year: int, month: int, day: int, hour: int, minute: int, second: int)

  /** The six numbers of `YYYY:MM:DD HH:MM:SS`; the separators at 10 and 16 are not looked at. */
  function ReadFields(text: string): Option<Fields> {
    if |text| < 19 || text[4] != ':' || text[7] != ':' || text[13] != ':' then None
    else
      var y, m, d := ParseInt(text[0..4]), ParseInt(text[5..7]), ParseInt(text[8..10]);
      var h, mi, s := ParseInt(text[11..13]), ParseInt(text[14..16]), ParseInt(text[17..19]);
      if y.None? || m.None? || d.None? || h.None? || mi.None? || s.None? then None
      else Some(Fields(y.value, m.value, d.value, h.value, mi.value, s.value))
  }

  predicate InRange(f: Fields) {
    1800 <= f.year <= 9999 && 1 <= f.month <= 12 && 1 <= f.day <= 31 && f.hour <= 23 && f.minute <= 59 && f.second <= 60
  }

  /** `parse_exif_time`. */
  function ParseExifTime(text: string): Option<int> {
    var f := ReadFields(text);
    if f.None? || !InRange(f.value) then None
    else Some(DaysFromCivil(f.value.year, f.value.month, f.value.day) * 86400
              + f.value.hour * 3600 + f.value.minute * 60 + f.value.second)
  }

  /** Every field of the text is digits, as cameras write it. */
  predicate DigitFields(text: string) {
    && |text| >= 19 && AllDigits(text[0..4]) && AllDigits(text[5..7]) && AllDigits(text[8..10])
    && AllDigits(text[11..13]) && AllDigits(text[14..16]) && AllDigits(text[17..19])
  }

  // ----- digits

  lemma {:induction false} ValueSnoc(s: string, c: char)
    requires AllDigits(s) && IsDigit(c)
    ensures AllDigits(s + [c]) && Value(s + [c]) == Value(s) * 10 + ValueOf(c)
  {
    assert (s + [c])[..|s|] == s;
  }

  /** Printing undoes reading, for digits that do not open with a zero. */
  lemma {:induction false} DecimalOfValue(s: string)
    requires s != "" && AllDigits(s) && s[0] != '0'
    ensures Value(s) >= 1 && Decimal(Value(s)) == s
  {
    var front, c := s[..|s| - 1], s[|s| - 1];
    assert s == front + [c];
    ValueSnoc(front, c);
    if front != "" {
      DecimalOfValue(front);
      Quotient(Value(s), 10, Value(front));
    } else {
      assert Value(front) == 0;
    }
  }

  /** Reading undoes printing. */
  lemma {:induction false} ValueOfDecimal(n: nat)
    ensures Value(Decimal(n)) == n
  {
    if n < 10 {
      assert Value("") == 0;
      ValueSnoc("", DigitOf(n));
      assert "" + [DigitOf(n)] == Decimal(n);
    } else {
      ValueOfDecimal(n / 10);
      ValueSnoc(Decimal(n / 10), DigitOf(n % 10));
    }
  }

  lemma {:induction false} TwoDigits(s: string)
    requires |s| == 2 && AllDigits(s)
    ensures FormatInt(Value(s), 2) == s && ParseInt(s) == Some(Value(s))
  {
    assert IsDigit(s[0]) && s[0] != '-' && s[0] != '+';
    assert ParseInt(s) == Some(Value(s));
    if s[0] != '0' {
      DecimalOfValue(s);
      assert Zeros(0) + s == s;
    } else {
      ZeroThenDigit(s);
      assert Zeros(1) == Zeros(0) + "0" == "0";
      assert "0" + [s[1]] == s;
    }
  }

  lemma {:induction false} ZeroThenDigit(s: string)
    requires |s| == 2 && AllDigits(s) && s[0] == '0'
    ensures Value(s) == ValueOf(s[1]) && Decimal(Value(s)) == [s[1]]
  {
    var zero := s[..1];
    assert zero[..0] == "" && zero[0] == '0';
    assert Value(zero) == Value(zero[..0]) * 10 + ValueOf('0') == 0;
  }

  lemma {:induction false} FourDigits(s: string)
    requires |s| == 4 && AllDigits(s) && s[0] != '0'
    ensures FormatInt(Value(s), 4) == s && ParseInt(s) == Some(Value(s))
  {
    assert IsDigit(s[0]) && s[0] != '-' && s[0] != '+';
    DecimalOfValue(s);
    assert Zeros(0) + s == s;
  }

  lemma {:induction false} LeadingZero(s: string)
    requires |s| == 4 && AllDigits(s) && s[0] == '0'
    ensures Value(s) < 1000
  {
    assert s[..3][..2] == s[..2] && s[..2][..1] == s[..1] && s[..1][..0] == "";
    assert Value(s[..1]) == Value("") * 10 + 0;
    assert Value(s[..2]) <= 9;
    assert Value(s[..3]) <= 99;
  }

  lemma {:induction false} ZerosInFront(k: int, s: string)
    requires AllDigits(s)
    ensures AllDigits(Zeros(k)) && AllDigits(Zeros(k) + s) && Value(Zeros(k) + s) == Value(s)
    decreases |s|, if k < 0 then 0 else k
  {
    if s != "" {
      var front, c := s[..|s| - 1], s[|s| - 1];
      assert s == front + [c] && Zeros(k) + s == (Zeros(k) + front) + [c];
      ZerosInFront(k, front);
      ValueSnoc(Zeros(k) + front, c);
      ValueSnoc(front, c);
    } else {
      assert Zeros(k) + "" == Zeros(k);
      if k > 0 {
        ZerosInFront(k - 1, "");
        assert Zeros(k - 1) + "" == Zeros(k - 1);
        ValueSnoc(Zeros(k - 1), '0');
      } else {
        assert Zeros(k) == "";
      }
    }
  }

  /** Padded numbers that print alike are equal. */
  lemma {:induction false} FormatInjective(a: int, b: int, width: nat)
    requires b >= 0 && FormatInt(a, width) == FormatInt(b, width)
    ensures a == b
  {
    ZerosInFront(width - |Decimal(b)|, Decimal(b));
    ValueOfDecimal(b);
    assert IsDigit(FormatInt(b, width)[0]);
    if a >= 0 {
      ZerosInFront(width - |Decimal(a)|, Decimal(a));
      ValueOfDecimal(a);
    }
  }

  lemma {:induction false} TwoWide(n: int)
    requires 0 <= n < 100
    ensures |FormatInt(n, 2)| == 2
  {
    assert Zeros(1) == Zeros(0) + "0";
    assert n >= 10 ==> |Decimal(n / 10)| == 1;
  }

  /** Fields of two characters behind two dashes can be told apart. */
  lemma {:induction false} DashedInjective(y: string, m: string, d: string, y': string, m': string, d': string)
    requires |m| == |m'| == |d| == |d'| == 2 && y + "-" + m + "-" + d == y' + "-" + m' + "-" + d'
    ensures y == y' && m == m' && d == d'
  {
    var s := y + "-" + m + "-" + d;
    assert s[|y| + 4..] == d && s[|y'| + 4..] == d';
    assert s[|y| + 1..|y| + 3] == m && s[|y'| + 1..|y'| + 3] == m';
    assert s[..|y|] == y && s[..|y'|] == y';
  }

  /** Dates that print alike are equal. */
  lemma {:induction false} DateStringInjective(a: Date, b: Date)
    requires Valid(a) && 1 <= b.month <= 12 && 1 <= b.day <= 31 && b.year >= 0 && DateString(a) == DateString(b)
    ensures a == b
  {
    var y, m, d := FormatInt(a.year, 4), FormatInt(a.month, 2), FormatInt(a.day, 2);
    var y', m', d' := FormatInt(b.year, 4), FormatInt(b.month, 2), FormatInt(b.day, 2);
    TwoWide(a.month); TwoWide(b.month); TwoWide(a.day); TwoWide(b.day);
    DashedInjective(y, m, d, y', m', d');
    FormatInjective(a.day, b.day, 2);
    FormatInjective(a.month, b.month, 2);
    FormatInjective(a.year, b.year, 4);
  }

  /** The text's own date, with dashes. */
  function DateOf(text: string): string
    requires |text| >= 19
  {
    text[0..4] + "-" + text[5..7] + "-" + text[8..10]
  }

  lemma {:induction false} ReadsItsDigits(text: string)
    requires DigitFields(text) && ReadFields(text).Some? && InRange(ReadFields(text).value)
    ensures
      var f := ReadFields(text).value;
      && DateString(Date(f.year, f.month, f.day)) == DateOf(text)
      && 0 <= f.hour && 0 <= f.minute && 0 <= f.second
  {
    TwoDigits(text[5..7]); TwoDigits(text[8..10]);
    TwoDigits(text[11..13]); TwoDigits(text[14..16]); TwoDigits(text[17..19]);
    var year := text[0..4];
    assert IsDigit(year[0]);
    if year[0] == '0' {
      LeadingZero(year);
    }
    FourDigits(year);
  }

  /** An EXIF time written in digits prints back as its own date exactly when that date exists and the time
      is not the leap second at the end of its day. */
  lemma {:induction false} ExifDatePrintsBack(text: string)
    requires DigitFields(text) && ParseExifTime(text).Some?
    ensures
      var f := ReadFields(text).value;
      FormatEpochUtc(ParseExifTime(text).value) == DateOf(text)
      <==> Valid(Date(f.year, f.month, f.day)) && !(f.hour == 23 && f.minute == 59 && f.second == 60)
  {
    var f := ReadFields(text).value;
    var date := Date(f.year, f.month, f.day);
    var t := ParseExifTime(text).value;
    var tod := f.hour * 3600 + f.minute * 60 + f.second;
    var days := DaysFromCivil(f.year, f.month, f.day);
    ReadsItsDigits(text);
    assert t == 86400 * days + tod && 0 <= tod <= 86400;
    assert tod == 86400 <==> f.hour == 23 && f.minute == 59 && f.second == 60;
    Quotient(t, 86400, if tod == 86400 then days + 1 else days);
    PrintsBackIff(date, t / 86400, days, tod == 86400);
  }

  /** Which texts in digits are accepted. */
  lemma {:induction false} ExifTimeIsAccepted(text: string)
    requires DigitFields(text)
    ensures ParseExifTime(text).Some? <==>
              && text[4] == ':' && text[7] == ':' && text[13] == ':'
              && 1800 <= Value(text[0..4]) && 1 <= Value(text[5..7]) <= 12 && 1 <= Value(text[8..10]) <= 31
              && Value(text[11..13]) < 24 && Value(text[14..16]) < 60 && Value(text[17..19]) <= 60
  {
    if text[4] == ':' && text[7] == ':' && text[13] == ':' {
      FieldsAreDigits(text);
    }
  }

  /** The time of day read is the one the text says, unless it is a leap second. */
  lemma {:induction false} ExifTimeIsItsTime(text: string)
    requires DigitFields(text) && ParseExifTime(text).Some? && Value(text[17..19]) < 60
    ensures
      var tod := ParseExifTime(text).value % 86400;
      && FormatInt(tod / 3600, 2) == text[11..13] && FormatInt(tod % 3600 / 60, 2) == text[14..16]
      && FormatInt(tod % 60, 2) == text[17..19]
  {
    FieldsAreDigits(text);
    var f := ReadFields(text).value;
    TimeSplits(DaysFromCivil(f.year, f.month, f.day), f.hour, f.minute, f.second);
    TwoDigits(text[11..13]); TwoDigits(text[14..16]); TwoDigits(text[17..19]);
  }

  lemma {:induction false} TimeSplits(days: int, h: int, mi: int, s: int)
    requires 0 <= h < 24 && 0 <= mi < 60 && 0 <= s < 60
    ensures
      var tod := (days * 86400 + (h * 3600 + mi * 60 + s)) % 86400;
      tod / 3600 == h && tod % 3600 / 60 == mi && tod % 60 == s
  {
    var tod := h * 3600 + mi * 60 + s;
    Quotient(days * 86400 + tod, 86400, days);
    Quotient(tod, 3600, h);
    Quotient(mi * 60 + s, 60, mi);
    Quotient(tod, 60, h * 60 + mi);
  }

  lemma {:induction false} FieldsAreDigits(text: string)
    requires DigitFields(text) && text[4] == ':' && text[7] == ':' && text[13] == ':'
    ensures ReadFields(text) == Some(Fields(
              Value(text[0..4]), Value(text[5..7]), Value(text[8..10]),
              Value(text[11..13]), Value(text[14..16]), Value(text[17..19])))
    ensures Value(text[0..4]) <= 9999
  {
    FourBelow(text[0..4]);
  }

  lemma {:induction false} FourBelow(s: string)
    requires |s| == 4 && AllDigits(s)
    ensures Value(s) <= 9999
  {
    var s3, s2, s1 := s[..3], s[..2], s[..1];
    assert s3[..2] == s2 && s2[..1] == s1;
    ValueGrows(s1);
    ValueGrows(s2);
    ValueGrows(s3);
    ValueGrows(s);
    assert Value(s1[..0]) == 0;
  }

  lemma {:induction false} ValueGrows(s: string)
    requires s != "" && AllDigits(s)
    ensures Value(s) <= 10 * Value(s[..|s| - 1]) + 9
  {
    assert IsDigit(s[|s| - 1]);
  }

  lemma {:induction false} PrintsBackIff(date: Date, printed: int, days: int, over: bool)
    requires 1 <= date.month <= 12 && 1 <= date.day <= 31 && date.year >= 0
    requires days == DaysFromCivil(date.year, date.month, date.day) && printed == if over then days + 1 else days
    ensures DateString(CivilFromDays(printed)) == DateString(date) <==> Valid(date) && !over
  {
    DaysRoundTrip(printed);
    if DateString(CivilFromDays(printed)) == DateString(date) {
      DateStringInjective(CivilFromDays(printed), date);
    }
    if Valid(date) {
      DateRoundTrip(date);
    }
  }
}
