/**
  Proleptic Gregorian dates, ISO 8601 timestamps in UTC, clock times "HH:MM", and the
  conversions between instants and Indian Standard Time.  Instants count milliseconds
  from 1970-01-01T00:00:00.000Z.
 */
module Calendar {
  import opened Decimal

  const DAY_MS: int := 86_400_000
  const MINUTE_MS: int := 60_000
  const IST_OFFSET_MINUTES: int := 330
  const IST_OFFSET_MS: int := IST_OFFSET_MINUTES * MINUTE_MS

  // ---- dates ------------------------------------------------------------------------

  datatype Date = Date(year: nat, month: nat, day: nat)

  predicate IsLeap(y: nat) {
    y % 4 == 0 && (y % 100 != 0 || y % 400 == 0)
  }

  function YearLength(y: nat): nat {
    if IsLeap(y) then 366 else 365
  }

  function MonthLength(y: nat, m: nat): nat
    requires 1 <= m <= 12
  {
    if m == 2 then (if IsLeap(y) then 29 else 28)
    else if m == 4 || m == 6 || m == 9 || m == 11 then 30
    else 31
  }

  predicate ValidDate(d: Date) {
    1 <= d.month <= 12 && 1 <= d.day <= MonthLength(d.year, d.month)
  }

  function DaysBeforeYear(y: nat): int {
    365 * y + (y + 3) / 4 - (y + 99) / 100 + (y + 399) / 400
  }

  function DaysBeforeMonth(y: nat, m: nat): nat
    requires 1 <= m <= 13
  {
    if m == 1 then 0 else DaysBeforeMonth(y, m - 1) + MonthLength(y, m - 1)
  }

  /** Days from 0000-01-01 to 1970-01-01. */
  const EPOCH_DAYS: int := 719_528

  /** Days since 1970-01-01; a day beyond the end of its month runs over into the next one. */
  function DayNumber(d: Date): int
    requires 1 <= d.month <= 12
  {
    DaysBeforeYear(d.year) + DaysBeforeMonth(d.year, d.month) + d.day - 1 - EPOCH_DAYS
  }

  predicate DateBefore(a: Date, b: Date) {
    || a.year < b.year
    || (a.year == b.year && a.month < b.month)
    || (a.year == b.year && a.month == b.month && a.day < b.day)
  }

  lemma YearStep(y: nat)
    ensures DaysBeforeYear(y + 1) == DaysBeforeYear(y) + YearLength(y)
  {
    MultiplesUpTo(y, 4);
    MultiplesUpTo(y, 100);
    MultiplesUpTo(y, 400);
    Divisibility(y);
  }

  lemma MultiplesUpTo(y: nat, k: int)
    requires k == 4 || k == 100 || k == 400
    ensures (y + k) / k == (y + k - 1) / k + if y % k == 0 then 1 else 0
  {
    if k == 4 {
    } else if k == 100 {
    } else {
    }
  }

  lemma Divisibility(y: nat)
    ensures y % 400 == 0 ==> y % 100 == 0
    ensures y % 100 == 0 ==> y % 4 == 0
  {
    if y % 400 == 0 {
      assert y == 100 * (4 * (y / 400));
    }
    if y % 100 == 0 {
      assert y == 4 * (25 * (y / 100));
    }
  }

  lemma {:induction false} YearOrder(y: nat, z: nat)
    requires y < z
    ensures DaysBeforeYear(y) + YearLength(y) <= DaysBeforeYear(z)
  {
    YearStep(z - 1);
    if y < z - 1 {
      YearOrder(y, z - 1);
    }
  }

  lemma {:induction false} MonthOrder(y: nat, m: nat, n: nat)
    requires 1 <= m < n <= 13
    ensures DaysBeforeMonth(y, m) + MonthLength(y, m) <= DaysBeforeMonth(y, n)
  {
    if m < n - 1 {
      MonthOrder(y, m, n - 1);
    }
  }

  lemma MonthsFillYear(y: nat)
    ensures DaysBeforeMonth(y, 13) == YearLength(y)
  {
    assert DaysBeforeMonth(y, 2) == 31;
    assert DaysBeforeMonth(y, 3) == 31 + MonthLength(y, 2);
    assert DaysBeforeMonth(y, 5) == DaysBeforeMonth(y, 3) + 61;
    assert DaysBeforeMonth(y, 7) == DaysBeforeMonth(y, 5) + 61;
    assert DaysBeforeMonth(y, 9) == DaysBeforeMonth(y, 7) + 62;
    assert DaysBeforeMonth(y, 11) == DaysBeforeMonth(y, 9) + 61;
  }

  /** Year, month, day order is chronological order. */
  lemma DateOrder(a: Date, b: Date)
    requires ValidDate(a) && ValidDate(b)
    ensures DayNumber(a) < DayNumber(b) <==> DateBefore(a, b)
    ensures DayNumber(a) == DayNumber(b) <==> a == b
  {
    if DateBefore(a, b) {
      DateBeforeSmaller(a, b);
    } else if DateBefore(b, a) {
      DateBeforeSmaller(b, a);
    }
  }

  lemma DateBeforeSmaller(a: Date, b: Date)
    requires ValidDate(a) && ValidDate(b) && DateBefore(a, b)
    ensures DayNumber(a) < DayNumber(b)
  {
    if a.year < b.year {
      YearOrder(a.year, b.year);
      MonthsFillYear(a.year);
      MonthOrder(a.year, a.month, 13);
    } else if a.month < b.month {
      MonthOrder(a.year, a.month, b.month);
    }
  }

  function NextDay(d: Date): Date
    requires ValidDate(d)
  {
    if d.day < MonthLength(d.year, d.month) then d.(day := d.day + 1)
    else if d.month < 12 then Date(d.year, d.month + 1, 1)
    else Date(d.year + 1, 1, 1)
  }

  lemma NextDayFollows(d: Date)
    requires ValidDate(d)
    ensures ValidDate(NextDay(d)) && DayNumber(NextDay(d)) == DayNumber(d) + 1
  {
    if d.day == MonthLength(d.year, d.month) && d.month == 12 {
      YearStep(d.year);
      MonthsFillYear(d.year);
    }
  }

  /** The date of a day number: the inverse of `DayNumber`. */
  function DateOf(n: int): (d: Date)
    requires -EPOCH_DAYS <= n
    ensures ValidDate(d) && DayNumber(d) == n
    decreases n + EPOCH_DAYS
  {
    if n == -EPOCH_DAYS then Date(0, 1, 1)
    else
      NextDayFollows(DateOf(n - 1));
      NextDay(DateOf(n - 1))
  }

  lemma DateOfDayNumber(d: Date)
    requires ValidDate(d)
    ensures -EPOCH_DAYS <= DayNumber(d) && DateOf(DayNumber(d)) == d
  {
    FirstDayIsEarliest(d);
    DateOrder(DateOf(DayNumber(d)), d);
  }

  lemma FirstDayIsEarliest(d: Date)
    requires ValidDate(d)
    ensures -EPOCH_DAYS <= DayNumber(d)
  {
    DateOrder(Date(0, 1, 1), d);
    assert DaysBeforeYear(0) == 0;
  }

  // ---- timestamps -----------------------------------------------------------------------

  datatype Stamp = Stamp(date: Date, hour: nat, minute: nat, second: nat, milli: nat)

  predicate ValidStamp(s: Stamp) {
    ValidDate(s.date) && s.hour < 24 && s.minute < 60 && s.second < 60 && s.milli < 1000
  }

  function Instant(s: Stamp): int
    requires ValidStamp(s)
  {
    DayNumber(s.date) * DAY_MS + ((s.hour * 60 + s.minute) * 60 + s.second) * 1000 + s.milli
  }

  function StampAt(ms: int): (s: Stamp)
    requires -EPOCH_DAYS * DAY_MS <= ms
    ensures ValidStamp(s) && Instant(s) == ms
  {
    var t := ms % DAY_MS;
    var s := t / 1000;
    var m := s / 60;
    Stamp(DateOf(ms / DAY_MS), m / 60, m % 60, s % 60, t % 1000)
  }

  /** `toISOString()` for the years 0 to 9999. */
  function Iso(s: Stamp): string {
    Pad(s.date.year, 4) + ("-" + (Pad(s.date.month, 2) + ("-" + (Pad(s.date.day, 2) + ("T" + (Pad(s.hour, 2) + (":" +
    (Pad(s.minute, 2) + (":" + (Pad(s.second, 2) + ("." + (Pad(s.milli, 3) + "Z"))))))))))))
  }

  /** One field and its separator: the field decides unless the values are equal. */
  lemma FieldOrder(m: nat, n: nat, width: nat, separator: string, a: string, b: string)
    requires m < Pow10(width) && n < Pow10(width)
    ensures Before(Pad(m, width) + (separator + a), Pad(n, width) + (separator + b))
            == (m < n || (m == n && Before(a, b)))
  {
    PadOrder(m, n, width);
    BeforeAppend(Pad(m, width), Pad(n, width), separator + a, separator + b);
    BeforeAppend(separator, separator, a, b);
    BeforeIrreflexive(separator);
  }

  lemma {:induction false} BeforeIrreflexive(s: string)
    ensures !Before(s, s)
  {
    if s != "" {
      BeforeIrreflexive(s[1..]);
    }
  }

  predicate ClockBefore(a: Stamp, b: Stamp) {
    || a.hour < b.hour
    || (a.hour == b.hour && a.minute < b.minute)
    || (a.hour == b.hour && a.minute == b.minute && a.second < b.second)
    || (a.hour == b.hour && a.minute == b.minute && a.second == b.second && a.milli < b.milli)
  }

  lemma PowersOfTen()
    ensures Pow10(2) == 100 && Pow10(3) == 1000 && Pow10(4) == 10000
  {
    assert Pow10(1) == 10 * Pow10(0);
  }

  lemma IsoFieldOrder(a: Stamp, b: Stamp)
    requires ValidStamp(a) && ValidStamp(b) && a.date.year <= 9999 && b.date.year <= 9999
    ensures Before(Iso(a), Iso(b)) <==> DateBefore(a.date, b.date) || (a.date == b.date && ClockBefore(a, b))
  {
    PowersOfTen();
    BeforeIrreflexive("Z");
    BeforeAppend(Pad(a.milli, 3), Pad(b.milli, 3), "Z", "Z");
    PadOrder(a.milli, b.milli, 3);
    var a6, b6 := Pad(a.milli, 3) + "Z", Pad(b.milli, 3) + "Z";
    var a5, b5 := Pad(a.second, 2) + ("." + a6), Pad(b.second, 2) + ("." + b6);
    FieldOrder(a.second, b.second, 2, ".", a6, b6);
    var a4, b4 := Pad(a.minute, 2) + (":" + a5), Pad(b.minute, 2) + (":" + b5);
    FieldOrder(a.minute, b.minute, 2, ":", a5, b5);
    var a3, b3 := Pad(a.hour, 2) + (":" + a4), Pad(b.hour, 2) + (":" + b4);
    FieldOrder(a.hour, b.hour, 2, ":", a4, b4);
    var a2, b2 := Pad(a.date.day, 2) + ("T" + a3), Pad(b.date.day, 2) + ("T" + b3);
    FieldOrder(a.date.day, b.date.day, 2, "T", a3, b3);
    var a1, b1 := Pad(a.date.month, 2) + ("-" + a2), Pad(b.date.month, 2) + ("-" + b2);
    FieldOrder(a.date.month, b.date.month, 2, "-", a2, b2);
    FieldOrder(a.date.year, b.date.year, 4, "-", a1, b1);
  }

  /**
    Comparing canonical UTC timestamps of the years 0000 to 9999 as strings is comparing
    the instants they denote.
   */
  lemma IsoOrder(a: Stamp, b: Stamp)
    requires ValidStamp(a) && ValidStamp(b) && a.date.year <= 9999 && b.date.year <= 9999
    ensures Before(Iso(a), Iso(b)) <==> Instant(a) < Instant(b)
  {
    IsoFieldOrder(a, b);
    DateOrder(a.date, b.date);
  }

  // ---- clock times ----------------------------------------------------------------------

  /** "H:MM" or "HH:MM", from 0:00 to 23:59. */
  predicate IsTime(s: string) {
    && (|s| == 4 || |s| == 5)
    && s[|s| - 3] == ':'
    && IsNumeral(s[..|s| - 3]) && Value(s[..|s| - 3]) < 24
    && IsNumeral(s[|s| - 2..]) && Value(s[|s| - 2..]) < 60
  }

  function ToMinutes(s: string): (m: nat)
    requires IsTime(s)
    ensures m < 1440
  {
    Value(s[..|s| - 3]) * 60 + Value(s[|s| - 2..])
  }

  /** Hours and minutes, each padded to two digits. */
  function ToHHMM(minutes: nat): string {
    PadStart(ToString(minutes / 60), 2) + ":" + PadStart(ToString(minutes % 60), 2)
  }

  /** Rendering a minute of the day and reading it back returns that minute. */
  lemma ToMinutesToHHMM(minutes: nat)
    requires minutes < 1440
    ensures IsTime(ToHHMM(minutes)) && ToMinutes(ToHHMM(minutes)) == minutes
  {
    var h, m := minutes / 60, minutes % 60;
    PowersOfTen();
    PadStartToString(h, 2);
    PadStartToString(m, 2);
    ValuePad(h, 2);
    ValuePad(m, 2);
    var s := ToHHMM(minutes);
    assert s[..2] == Pad(h, 2) && s[3..] == Pad(m, 2);
  }

  // ---- Indian Standard Time ---------------------------------------------------------------

  /** The day number of a date as `Date.UTC` reads it: years below 100 mean 1900 and later. */
  function DayAsRead(d: Date): int
    requires 1 <= d.month <= 12
  {
    DayNumber(if d.year <= 99 then d.(year := 1900 + d.year) else d)
  }

  /** `Date.UTC(year, month - 1, day, 0, minutes)`. */
  function UtcMs(d: Date, minutes: int): int
    requires 1 <= d.month <= 12
  {
    DayAsRead(d) * DAY_MS + minutes * MINUTE_MS
  }

  /** Dates are read literally exactly from the year 100 on. */
  lemma DayAsReadExactly(d: Date)
    requires ValidDate(d)
    ensures DayAsRead(d) == DayNumber(d) <==> 100 <= d.year
  {
    if d.year < 100 {
      YearOrder(d.year, 1900 + d.year);
      MonthsFillYear(d.year);
      MonthOrder(d.year, d.month, 13);
    }
  }

  /** The instant `istDateStringTimeToUtcIso` renders, for a date and a minute of that day in IST. */
  function IstToUtc(d: Date, minutes: int): int
    requires 1 <= d.month <= 12
  {
    UtcMs(d, minutes) - IST_OFFSET_MS
  }

  function IstDay(ms: int): int {
    (ms + IST_OFFSET_MS) / DAY_MS
  }

  function IstMinute(ms: int): (m: nat)
    ensures m < 1440
  {
    (ms + IST_OFFSET_MS) % DAY_MS / MINUTE_MS
  }

  /** The day of an instant in UTC. */
  function UtcDay(ms: int): int {
    ms / DAY_MS
  }

  /**
    Converting an IST date and minute to UTC and back returns the minute, and it returns the
    date exactly from the year 100 on.
   */
  lemma IstRoundTrip(d: Date, minutes: nat)
    requires ValidDate(d) && minutes < 1440
    ensures IstMinute(IstToUtc(d, minutes)) == minutes
    ensures IstDay(IstToUtc(d, minutes)) == DayAsRead(d)
    ensures IstDay(IstToUtc(d, minutes)) == DayNumber(d) <==> 100 <= d.year
  {
    DayAsReadExactly(d);
    MinuteOfIstDay(DayAsRead(d), minutes);
  }

  lemma MinuteOfIstDay(day: int, minutes: nat)
    requires minutes < 1440
    ensures IstDay(day * DAY_MS + minutes * MINUTE_MS - IST_OFFSET_MS) == day
    ensures IstMinute(day * DAY_MS + minutes * MINUTE_MS - IST_OFFSET_MS) == minutes
  {
  }

  /** `getUtcRangeForIstDate`: both ends of the IST day are inclusive. */
  function UtcRangeOfIstDate(d: Date): (int, int)
    requires 1 <= d.month <= 12
  {
    (IstToUtc(d, 0), IstToUtc(d, 1439) + 59_999)
  }

  predicate InRangeOf(d: Date, ms: int)
    requires 1 <= d.month <= 12
  {
    UtcRangeOfIstDate(d).0 <= ms <= UtcRangeOfIstDate(d).1
  }

  /** The range of an IST date holds exactly the instants of that date, from the year 100 on and only then. */
  lemma UtcRangeExact(d: Date)
    requires ValidDate(d)
    ensures (forall ms :: InRangeOf(d, ms) <==> IstDay(ms) == DayNumber(d)) <==> 100 <= d.year
  {
    DayAsReadExactly(d);
    assert forall ms :: InRangeOf(d, ms) <==> IstDay(ms) == DayAsRead(d);
    assert InRangeOf(d, UtcRangeOfIstDate(d).0);
  }
}
