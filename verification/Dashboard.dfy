/** Dashboard analytics: activity buckets in IST. */
module Dashboard {
  import opened Calendar

  datatype Period = Week | Month | Year

  /** An IST day, or an IST month. */
  datatype Key = DayKey(day: int) | MonthKey(year: nat, month: nat) | NoKey

  datatype Bucket = Bucket(key: Key, start: int, end: int)

  /** `getIstDateKey`. */
  function DateKey(ms: int): Key {
    DayKey(IstDay(ms))
  }

  /** `getIstMonthKey`; instants before the year 0 have none. */
  function IstMonthKey(ms: int): Key {
    if IstDay(ms) < -EPOCH_DAYS then NoKey else MonthKey(DateOf(IstDay(ms)).year, DateOf(IstDay(ms)).month)
  }

  function KeyOf(period: Period, ms: int): Key {
    if period == Year then IstMonthKey(ms) else DateKey(ms)
  }

  // ---- buckets ------------------------------------------------------------------------------

  /** The first and last millisecond of an IST day. */
  function DayBucket(day: int): Bucket {
    Bucket(DayKey(day), day * DAY_MS - IST_OFFSET_MS, (day + 1) * DAY_MS - 1 - IST_OFFSET_MS)
  }

  /** `getUtcRangeForIstMonth`: the last day of a month is day 0 of the next one. */
  function MonthBucket(year: nat, month: nat): Bucket
    requires 1 <= month <= 12
  {
    Bucket(MonthKey(year, month),
           DayNumber(Date(year, month, 1)) * DAY_MS - IST_OFFSET_MS,
           (DayNumber(Date(year, month, MonthLength(year, month))) + 1) * DAY_MS - 1 - IST_OFFSET_MS)
  }

  function BucketCount(period: Period, today: Date): nat {
    match period
    case Week => 7
    case Month => today.day
    case Year => today.month
  }

  function BucketAt(period: Period, today: Date, i: nat): Bucket
    requires ValidDate(today) && i < BucketCount(period, today)
  {
    match period
    case Week => DayBucket(DayNumber(today) - 6 + i)
    case Month => DayBucket(DayNumber(today) - today.day + 1 + i)
    case Year => MonthBucket(today.year, i + 1)
  }

  function BucketsFor(period: Period, today: Date): (b: seq<Bucket>)
    requires ValidDate(today)
    ensures |b| == BucketCount(period, today) && forall i :: 0 <= i < |b| ==> b[i] == BucketAt(period, today, i)
  {
    seq(BucketCount(period, today), i requires 0 <= i < BucketCount(period, today) => BucketAt(period, today, i))
  }

  /** The range `getUtcRangeForIstDate` gives for an instant, whose date it reads in UTC. */
  function BucketOfInstant(ms: int): Bucket {
    Bucket(DateKey(ms), UtcDay(ms) * DAY_MS - IST_OFFSET_MS,
           UtcDay(ms) * DAY_MS + 1439 * MINUTE_MS + 59_999 - IST_OFFSET_MS)
  }

  /** Midnight UTC falls on the same date in IST. */
  lemma MidnightInIst(day: int)
    ensures BucketOfInstant(day * DAY_MS) == DayBucket(day)
  {
  }

  /** The first `|b|` buckets of the period. */
  ghost predicate Filled(b: seq<Bucket>, period: Period, today: Date)
    requires ValidDate(today)
  {
    |b| <= BucketCount(period, today) && forall i :: 0 <= i < |b| ==> b[i] == BucketAt(period, today, i)
  }

  method BuildWeek(today: Date) returns (buckets: seq<Bucket>)
    requires ValidDate(today) && 100 <= today.year
    ensures buckets == BucketsFor(Week, today)
  {
    buckets := [];
    var anchor := UtcMs(today, 0);
    var offset := 6;
    while offset >= 0
      invariant -1 <= offset <= 6 && |buckets| == 6 - offset
      invariant Filled(buckets, Week, today)
    {
      var current := anchor - offset * DAY_MS;
      MidnightInIst(DayNumber(today) - offset);
      buckets := buckets + [BucketOfInstant(current)];
      offset := offset - 1;
    }
  }

  method BuildMonth(today: Date) returns (buckets: seq<Bucket>)
    requires ValidDate(today) && 100 <= today.year
    ensures buckets == BucketsFor(Month, today)
  {
    buckets := [];
    for currentDay := 1 to today.day + 1
      invariant |buckets| == currentDay - 1
      invariant Filled(buckets, Month, today)
    {
      var current := UtcMs(Date(today.year, today.month, currentDay), 0);
      MidnightInIst(DayNumber(today) - today.day + currentDay);
      buckets := buckets + [BucketOfInstant(current)];
    }
  }

  method BuildYear(today: Date) returns (buckets: seq<Bucket>)
    requires ValidDate(today) && 100 <= today.year
    ensures buckets == BucketsFor(Year, today)
  {
    buckets := [];
    for monthIndex := 0 to today.month
      invariant |buckets| == monthIndex
      invariant Filled(buckets, Year, today)
    {
      var current := UtcMs(Date(today.year, monthIndex + 1, 1), 0);
      MidnightOfMonth(today.year, monthIndex + 1);
      var range := MonthBucket(today.year, monthIndex + 1);
      buckets := buckets + [Bucket(IstMonthKey(current), range.start, range.end)];
    }
  }

  /**
    `buildBuckets`.  Its last resort for a year without buckets is never needed, because the
    month is at least 1.  `Date.UTC` reads the years below 100 as 1900 and later.
   */
  method BuildBuckets(period: Period, now: int) returns (buckets: seq<Bucket>)
    requires -EPOCH_DAYS <= IstDay(now) && 100 <= DateOf(IstDay(now)).year
    ensures buckets == BucketsFor(period, DateOf(IstDay(now)))
  {
    var today := DateOf(IstDay(now));
    if period == Week {
      buckets := BuildWeek(today);
      return;
    }
    if period == Month {
      buckets := BuildMonth(today);
      return;
    }
    buckets := BuildYear(today);
  }

  lemma MidnightOfMonth(year: nat, month: nat)
    requires 1 <= month <= 12
    ensures IstMonthKey(DayNumber(Date(year, month, 1)) * DAY_MS) == MonthKey(year, month)
  {
    var first := Date(year, month, 1);
    DateOfDayNumber(first);
    assert IstDay(DayNumber(first) * DAY_MS) == DayNumber(first);
  }

  ghost predicate KeysDiffer(b: seq<Bucket>) {
    forall i, j :: 0 <= i < j < |b| ==> b[i].key != b[j].key
  }

  /** The keys are pairwise different, and the last one is the key of `now`. */
  lemma BucketsDistinct(period: Period, now: int)
    requires -EPOCH_DAYS <= IstDay(now)
    ensures var b := BucketsFor(period, DateOf(IstDay(now)));
            && KeysDiffer(b)
            && |b| > 0 && b[|b| - 1].key == KeyOf(period, now)
  {
    var today := DateOf(IstDay(now));
    var b := BucketsFor(period, today);
    forall i, j | 0 <= i < j < |b|
      ensures b[i].key != b[j].key
    {
      BucketKeysDiffer(period, today, i, j);
    }
    LastBucket(period, today);
  }

  lemma BucketKeysDiffer(period: Period, today: Date, i: nat, j: nat)
    requires ValidDate(today) && i < j < BucketCount(period, today)
    ensures BucketAt(period, today, i).key != BucketAt(period, today, j).key
  {
  }

  lemma LastBucket(period: Period, today: Date)
    requires ValidDate(today)
    ensures BucketCount(period, today) > 0
    ensures BucketAt(period, today, BucketCount(period, today) - 1).key
         == if period == Year then MonthKey(today.year, today.month) else DayKey(DayNumber(today))
  {
  }

  /** The range of a bucket holds exactly the instants with its key, and consecutive ranges are adjacent. */
  lemma BucketRangeExact(period: Period, today: Date, i: nat, ms: int)
    requires ValidDate(today) && i < BucketCount(period, today)
    ensures var b := BucketAt(period, today, i);
            && (b.start <= ms <= b.end <==> KeyOf(period, ms) == b.key)
            && (i + 1 < BucketCount(period, today) ==> BucketAt(period, today, i + 1).start == b.end + 1)
  {
    match period
    case Week => DayRangeExact(DayNumber(today) - 6 + i, ms);
    case Month => DayRangeExact(DayNumber(today) - today.day + 1 + i, ms);
    case Year => MonthRangeExact(today.year, i + 1, ms);
  }

  lemma DayRangeExact(day: int, ms: int)
    ensures DayBucket(day).start <= ms <= DayBucket(day).end <==> IstDay(ms) == day
  {
  }

  lemma MonthRangeExact(year: nat, month: nat, ms: int)
    requires 1 <= month <= 12
    ensures var b := MonthBucket(year, month);
            && (b.start <= ms <= b.end <==> IstMonthKey(ms) == b.key)
            && (month < 12 ==> MonthBucket(year, month + 1).start == b.end + 1)
  {
    var first, last := Date(year, month, 1), Date(year, month, MonthLength(year, month));
    FirstDayIsEarliest(first);
    if -EPOCH_DAYS <= IstDay(ms) {
      DateOrder(first, DateOf(IstDay(ms)));
      DateOrder(DateOf(IstDay(ms)), last);
    }
    assert MonthBucket(year, month).start <= ms <==> DayNumber(first) <= IstDay(ms);
    assert ms <= MonthBucket(year, month).end <==> IstDay(ms) <= DayNumber(last);
  }

  // ---- the window the buckets cover ---------------------------------------------------------

  /** Some bucket among the first `n` has that key. */
  predicate KeyAmong(buckets: seq<Bucket>, n: nat, key: Key)
    requires n <= |buckets|
  {
    exists i :: 0 <= i < n && buckets[i].key == key
  }

  /** Adjacent ranges, of which the one with that key, and no other, holds the instant. */
  ghost predicate Tiles(buckets: seq<Bucket>, key: Key, ms: int) {
    && (forall i :: 0 <= i < |buckets| ==>
          && buckets[i].start <= buckets[i].end
          && (buckets[i].start <= ms <= buckets[i].end <==> key == buckets[i].key))
    && (forall i :: 0 < i < |buckets| ==> buckets[i].start == buckets[i - 1].end + 1)
  }

  lemma {:induction false} TilesCover(buckets: seq<Bucket>, key: Key, ms: int, n: nat)
    requires Tiles(buckets, key, ms) && 0 < n <= |buckets|
    ensures KeyAmong(buckets, n, key) <==> buckets[0].start <= ms <= buckets[n - 1].end
    ensures buckets[0].start <= buckets[n - 1].end
  {
    KeyAmongStep(buckets, n, key);
    if n > 1 {
      TilesCover(buckets, key, ms, n - 1);
    }
  }

  lemma KeyAmongStep(buckets: seq<Bucket>, n: nat, key: Key)
    requires 0 < n <= |buckets|
    ensures KeyAmong(buckets, n, key) <==> KeyAmong(buckets, n - 1, key) || key == buckets[n - 1].key
  {
  }

  /** The first `n` buckets cover exactly the instants from the start of the first to the end of the last of them. */
  lemma WindowExact(period: Period, today: Date, n: nat, ms: int)
    requires ValidDate(today) && 0 < n <= BucketCount(period, today)
    ensures var b := BucketsFor(period, today);
            KeyAmong(b, n, KeyOf(period, ms)) <==> b[0].start <= ms <= b[n - 1].end
  {
    BucketsTile(period, today, ms);
    TilesCover(BucketsFor(period, today), KeyOf(period, ms), ms, n);
  }

  lemma BucketsTile(period: Period, today: Date, ms: int)
    requires ValidDate(today)
    ensures Tiles(BucketsFor(period, today), KeyOf(period, ms), ms)
  {
    var buckets := BucketsFor(period, today);
    forall i | 0 <= i < |buckets|
      ensures buckets[i].start <= buckets[i].end
      ensures buckets[i].start <= ms <= buckets[i].end <==> KeyOf(period, ms) == buckets[i].key
      ensures i + 1 < |buckets| ==> buckets[i + 1].start == buckets[i].end + 1
    {
      BucketTile(period, today, i, ms);
    }
    assert forall i :: 0 < i < |buckets| ==> buckets[i].start == buckets[i - 1 + 1].start;
  }

  lemma BucketTile(period: Period, today: Date, i: nat, ms: int)
    requires ValidDate(today) && i < BucketCount(period, today)
    ensures var b := BucketsFor(period, today);
            && b[i].start <= b[i].end
            && (b[i].start <= ms <= b[i].end <==> KeyOf(period, ms) == b[i].key)
            && (i + 1 < |b| ==> b[i + 1].start == b[i].end + 1)
  {
    BucketRangeExact(period, today, i, ms);
    BucketNotEmpty(period, today, i);
  }

  lemma BucketNotEmpty(period: Period, today: Date, i: nat)
    requires ValidDate(today) && i < BucketCount(period, today)
    ensures BucketAt(period, today, i).start <= BucketAt(period, today, i).end
  {
  }

  /** The periods: the seven days up to today, this month up to today, this year up to the end of this month. */
  lemma PeriodExactly(period: Period, today: Date, ms: int)
    requires ValidDate(today)
    ensures var b := BucketsFor(period, today);
            && |b| > 0
            && (b[0].start <= ms <= b[|b| - 1].end <==>
                  match period
                  case Week => DayNumber(today) - 6 <= IstDay(ms) <= DayNumber(today)
                  case Month => DayNumber(Date(today.year, today.month, 1)) <= IstDay(ms) <= DayNumber(today)
                  case Year =>
                    DayNumber(Date(today.year, 1, 1)) <= IstDay(ms)
                    <= DayNumber(Date(today.year, today.month, MonthLength(today.year, today.month))))
  {
  }
}
