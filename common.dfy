/** Values shared by the scheduling, forecasting, query and slot-listing models:
    an Option type, calendar dates with Python's weekday numbering, the
    appointment record the core reads, and the decimal formatting used by
    `strftime('%H:%M')` and `date.isoformat()`. */
module Common {

  datatype Option<+T> = None | Some(value: T) {
    function GetOr(default: T): T {
      if Some? then value else default
    }
  }

  type Month = m: int | 1 <= m <= 12 witness 1
  type DayOfMonth = d: int | 1 <= d <= 31 witness 1
  type Hour = h: int | 0 <= h < 24
  type Minute = m: int | 0 <= m < 60

  /** A calendar date (proleptic Gregorian, as Python's `date`). */
  datatype Date = Date(year: nat, month: Month, day: DayOfMonth)

  /** A date and a time of day; seconds and sub-second parts are not kept. */
  datatype DateTime = DateTime(date: Date, hour: Hour, minute: Minute)

  /** A date string as stored or as received, together with what
      `datetime.fromisoformat` makes of it (None: it raises). */
  datatype IsoText = IsoText(text: string, parsed: Option<DateTime>)

  /** An appointment as handed to the core: its stored date string (None when
      the column is NULL), its doctor id (None when NULL) and the number of
      appointments its patient has. */
  datatype Appointment = Appointment(date: Option<IsoText>, doctorId: Option<int>, historyCount: nat)

  /** What `datetime.fromisoformat(appt['date'])` yields for a record; a NULL
      date raises like a malformed one. */
  function ParsedDate(a: Appointment): Option<DateTime> {
    if a.date.Some? then a.date.value.parsed else None
  }

  // ---------------------------------------------------------------- calendar

  predicate IsLeap(y: int) {
    y % 4 == 0 && (y % 100 != 0 || y % 400 == 0)
  }

  function DaysInMonth(y: int, m: Month): int {
    if m == 2 then (if IsLeap(y) then 29 else 28)
    else if m == 4 || m == 6 || m == 9 || m == 11 then 30
    else 31
  }

  /** Dates that `datetime` can represent. */
  predicate ValidDate(d: Date) {
    1 <= d.year <= 9999 && d.day <= DaysInMonth(d.year, d.month)
  }

  /** Days in the months of year y before month m. */
  function DaysBeforeMonth(y: int, m: Month): nat
    decreases m
  {
    if m == 1 then 0 else DaysBeforeMonth(y, m - 1) + DaysInMonth(y, m - 1)
  }

  /** Days in the years before year y (y >= 1). */
  function DaysBeforeYear(y: int): int {
    var y1 := y - 1;
    y1 * 365 + y1 / 4 - y1 / 100 + y1 / 400
  }

  /** Python's `date.toordinal()`: 0001-01-01 is day 1. */
  function Ordinal(d: Date): int {
    DaysBeforeYear(d.year) + DaysBeforeMonth(d.year, d.month) + d.day
  }

  /** Python's `date.weekday()`: Monday is 0, Sunday is 6. */
  function Weekday(d: Date): nat {
    (Ordinal(d) + 6) % 7
  }

  /** The calendar day after d, as `d + timedelta(days=1)` gives it. */
  function NextDay(d: Date): Date {
    if d.day < DaysInMonth(d.year, d.month) then Date(d.year, d.month, d.day + 1)
    else if d.month < 12 then Date(d.year, d.month + 1, 1)
    else Date(d.year + 1, 1, 1)
  }

  lemma YearLength(y: int)
    requires y >= 1
    ensures DaysBeforeYear(y + 1) == DaysBeforeYear(y) + (if IsLeap(y) then 366 else 365)
  {
    DivStep(y, 4);
    DivStep(y, 100);
    DivStep(y, 400);
    DivisorChain(y);
    var a, b, c := (if y % 4 == 0 then 1 else 0), (if y % 100 == 0 then 1 else 0), (if y % 400 == 0 then 1 else 0);
    assert DaysBeforeYear(y + 1) == DaysBeforeYear(y) + 365 + a - b + c;
  }

  lemma MultipleMod(t: int, k: int)
    requires k == 4 || k == 100
    ensures (k * t) % k == 0
  {
  }

  /** A multiple of 400 is one of 100, and a multiple of 100 one of 4. */
  lemma DivisorChain(y: int)
    ensures y % 400 == 0 ==> y % 100 == 0
    ensures y % 100 == 0 ==> y % 4 == 0
  {
    if y % 400 == 0 {
      var t := 4 * (y / 400);
      assert y == 100 * t;
      MultipleMod(t, 100);
    }
    if y % 100 == 0 {
      var t := 25 * (y / 100);
      assert y == 4 * t;
      MultipleMod(t, 4);
    }
  }

  /** Going from y - 1 to y adds one to y / k exactly when k divides y. */
  lemma DivStep(y: int, k: int)
    requires y >= 1 && (k == 4 || k == 100 || k == 400)
    ensures y / k == (y - 1) / k + (if y % k == 0 then 1 else 0)
  {
    if k == 4 {
      assert y / 4 == (y - 1) / 4 + (if y % 4 == 0 then 1 else 0);
    } else if k == 100 {
      assert y / 100 == (y - 1) / 100 + (if y % 100 == 0 then 1 else 0);
    } else {
      assert y / 400 == (y - 1) / 400 + (if y % 400 == 0 then 1 else 0);
    }
  }

  /** The days before December plus December's 31 make a whole year. */
  lemma {:induction false} DaysBeforeDecember(y: int)
    ensures DaysBeforeMonth(y, 12) + 31 == (if IsLeap(y) then 366 else 365)
  {
    assert DaysBeforeMonth(y, 1) == 0;
  }

  /** NextDay stays a valid date and is the next ordinal day, so the weekday
      advances by one. */
  lemma NextDayOrdinal(d: Date)
    requires ValidDate(d) && d.year < 9999
    ensures ValidDate(NextDay(d))
    ensures Ordinal(NextDay(d)) == Ordinal(d) + 1
    ensures Weekday(NextDay(d)) == (Weekday(d) + 1) % 7
  {
    NextDayStep(d);
    WeekdayStep(Ordinal(d));
  }

  /** NextDay, case by case: the day after, the first of the next month, or
      New Year's day. */
  lemma NextDayStep(d: Date)
    requires ValidDate(d) && d.year < 9999
    ensures ValidDate(NextDay(d))
    ensures Ordinal(NextDay(d)) == Ordinal(d) + 1
  {
    if d.day < DaysInMonth(d.year, d.month) {
      assert NextDay(d) == Date(d.year, d.month, d.day + 1);
    } else if d.month < 12 {
      MonthStep(d);
    } else {
      NewYearOrdinal(d);
    }
  }

  lemma WeekdayStep(o: int)
    ensures (o + 1 + 6) % 7 == ((o + 6) % 7 + 1) % 7
  {
  }

  lemma MonthStep(d: Date)
    requires ValidDate(d) && d.month < 12 && d.day == DaysInMonth(d.year, d.month)
    ensures Ordinal(Date(d.year, d.month + 1, 1)) == Ordinal(d) + 1
  {
  }

  lemma NewYearOrdinal(d: Date)
    requires ValidDate(d) && d.month == 12 && d.day == 31
    ensures Ordinal(Date(d.year + 1, 1, 1)) == Ordinal(d) + 1
  {
    DaysBeforeDecember(d.year);
    YearLength(d.year);
    assert DaysBeforeMonth(d.year + 1, 1) == 0;
  }

  // -------------------------------------------------------------- formatting

  predicate IsDigit(c: char) {
    '0' <= c <= '9'
  }

  predicate AllDigits(s: string) {
    forall i :: 0 <= i < |s| ==> IsDigit(s[i])
  }

  function DigitChar(n: nat): char
    requires n < 10
  {
    ('0' as int + n) as char
  }

  function DigitValue(c: char): nat
    requires IsDigit(c)
  {
    (c as int - '0' as int)
  }

  /** Decimal digits of n without leading zeros (Python's `str(n)`). */
  function NatToString(n: nat): (s: string)
    ensures 1 <= |s| && AllDigits(s)
    ensures n < 10 ==> |s| == 1
    ensures 10 <= n < 100 ==> |s| == 2
    decreases n
  {
    if n < 10 then [DigitChar(n)] else NatToString(n / 10) + [DigitChar(n % 10)]
  }

  /** Python's `str(n)` for any integer. */
  function IntToString(n: int): string {
    if n < 0 then "-" + NatToString(-n) else NatToString(n)
  }

  function Zeros(k: nat): (s: string)
    ensures |s| == k && AllDigits(s)
  {
    if k == 0 then "" else "0" + Zeros(k - 1)
  }

  /** Python's `f"{n:0<width>d}"` for n >= 0: zero-padded on the left to at
      least `width` characters. */
  function ZeroPad(n: nat, width: nat): (s: string)
    ensures AllDigits(s)
  {
    var d := NatToString(n);
    if |d| >= width then d else Zeros(width - |d|) + d
  }

  /** The value of a string of decimal digits. */
  function DecimalValue(s: string): nat
    requires AllDigits(s)
  {
    if s == [] then 0 else DecimalValue(s[..|s| - 1]) * 10 + DigitValue(s[|s| - 1])
  }

  lemma {:induction false} NatToStringRoundTrip(n: nat)
    ensures DecimalValue(NatToString(n)) == n
    decreases n
  {
    var s := NatToString(n);
    if n >= 10 {
      NatToStringRoundTrip(n / 10);
      assert s[..|s| - 1] == NatToString(n / 10);
    }
  }

  lemma {:induction false} LeadingZeros(k: nat, s: string)
    requires AllDigits(s)
    ensures DecimalValue(Zeros(k) + s) == DecimalValue(s)
    decreases |s|
  {
    if s == [] {
      assert Zeros(k) + s == Zeros(k);
      ZerosValue(k);
    } else {
      var t := Zeros(k) + s;
      assert t[..|t| - 1] == Zeros(k) + s[..|s| - 1];
      LeadingZeros(k, s[..|s| - 1]);
    }
  }

  lemma {:induction false} ZerosValue(k: nat)
    ensures DecimalValue(Zeros(k)) == 0
  {
    if k > 0 {
      var z := Zeros(k);
      assert z[..|z| - 1] == Zeros(k - 1) by {
        assert forall i :: 0 <= i < k ==> z[i] == '0' by {
          ZerosAreZero(k);
        }
        ZerosAreZero(k - 1);
      }
      ZerosValue(k - 1);
    }
  }

  lemma {:induction false} ZerosAreZero(k: nat)
    ensures forall i :: 0 <= i < k ==> Zeros(k)[i] == '0'
  {
    if k > 0 {
      ZerosAreZero(k - 1);
    }
  }

  /** Zero padding does not change the value written. */
  lemma ZeroPadRoundTrip(n: nat, width: nat)
    ensures DecimalValue(ZeroPad(n, width)) == n
  {
    NatToStringRoundTrip(n);
    var d := NatToString(n);
    if |d| < width {
      LeadingZeros(width - |d|, d);
    }
  }

  /** Below 100, two-digit padding is exactly the tens and the units digit. */
  lemma TwoDigits(n: nat)
    requires n < 100
    ensures ZeroPad(n, 2) == [DigitChar(n / 10), DigitChar(n % 10)]
  {
    if n >= 10 {
      assert NatToString(n / 10) == [DigitChar(n / 10)];
    }
  }

  /** `strftime('%H:%M')` of a time of day. */
  function ClockLabel(hour: nat, minute: nat): string {
    ZeroPad(hour, 2) + ":" + ZeroPad(minute, 2)
  }

  /** `date.isoformat()`: YYYY-MM-DD. */
  function IsoDate(d: Date): string {
    ZeroPad(d.year, 4) + "-" + ZeroPad(d.month, 2) + "-" + ZeroPad(d.day, 2)
  }

  /** Reads back an "HH:MM" label: two digits, a colon, two digits. */
  function ParseClock(s: string): Option<(nat, nat)> {
    if |s| == 5 && AllDigits(s[..2]) && s[2] == ':' && AllDigits(s[3..])
    then Some((DecimalValue(s[..2]), DecimalValue(s[3..])))
    else None
  }

  /** Every label of a time below 100:00 is five characters "DD:DD" and reads
      back as the hour and minute it was made from. */
  lemma ClockLabelRoundTrip(hour: nat, minute: nat)
    requires hour < 100 && minute < 100
    ensures |ClockLabel(hour, minute)| == 5
    ensures ParseClock(ClockLabel(hour, minute)) == Some((hour, minute))
  {
    var s := ClockLabel(hour, minute);
    TwoDigits(hour);
    TwoDigits(minute);
    assert s[..2] == ZeroPad(hour, 2);
    assert s[3..] == ZeroPad(minute, 2);
    ZeroPadRoundTrip(hour, 2);
    ZeroPadRoundTrip(minute, 2);
  }
}
