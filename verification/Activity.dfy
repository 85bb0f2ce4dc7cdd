/**
  The activity overview of the dashboard: sessions, hours and earnings for each bucket, and
  their totals over the time the buckets cover.
 */
module Activity {
  import opened Wrappers
  import opened Calendar
  import opened Money
  import opened Bookings
  import opened Dashboard

  predicate Counted(b: Booking) {
    b.status == Completed && b.paymentStatus == Paid
  }

  /** `getBookingMentorNetCoins`. */
  function NetCoins(b: Booking): int {
    Round((if b.paymentType == Coins then b.total else b.total * COIN_VALUE) * MentorPercentage() / 100.0)
  }

  /** The earnings shown for a session are the coins its settlement pays. */
  lemma NetCoinsArePaid(b: Booking)
    ensures NetCoins(b) == Calculate(b.paymentType, b.total).mentorCoins
  {
    assert b.total * COIN_VALUE * MentorPercentage() / 100.0 == b.total * COIN_VALUE * (MentorPercentage() / 100.0);
  }

  /** `Number(x.toFixed(2))` for a number that is not negative. */
  function ToFixed2(x: real): real {
    Round(x * 100.0) as real / 100.0
  }

  function Hours(b: Booking): real {
    (if b.end > b.start then b.end - b.start else 0) as real / 3_600_000.0
  }

  /** What a session contributes: one session, its hours in hundredths, and the net coins. */
  datatype Figures = Figures(sessions: int, hundredths: int, coins: int)

  function Plus(f: Figures, g: Figures): Figures {
    Figures(f.sessions + g.sessions, f.hundredths + g.hundredths, f.coins + g.coins)
  }

  function Share(b: Booking): Figures {
    Figures(1, Round(Hours(b) * 100.0), NetCoins(b))
  }

  predicate InBucket(b: Booking, period: Period, key: Key) {
    Counted(b) && KeyOf(period, b.start) == key
  }

  /** The figures of the completed paid sessions that start in the bucket. */
  function TotalIn(bookings: seq<Booking>, period: Period, key: Key): Figures {
    if bookings == [] then Figures(0, 0, 0)
    else
      var b := bookings[|bookings| - 1];
      var t := TotalIn(bookings[..|bookings| - 1], period, key);
      if InBucket(b, period, key) then Plus(t, Share(b)) else t
  }

  lemma TotalSnoc(before: seq<Booking>, b: Booking, period: Period, key: Key)
    ensures TotalIn(before + [b], period, key)
         == if InBucket(b, period, key) then Plus(TotalIn(before, period, key), Share(b))
            else TotalIn(before, period, key)
  {
    assert (before + [b])[..|before|] == before;
  }

  // ---- the overview -------------------------------------------------------------------------

  /** The three series hold the parts. */
  ghost predicate Holds(sessions: seq<int>, hours: seq<real>, earnings: Option<seq<int>>, parts: seq<Figures>) {
    && |sessions| == |hours| == |parts| && (earnings.Some? ==> |earnings.value| == |parts|)
    && forall i :: 0 <= i < |parts| ==>
         && sessions[i] == parts[i].sessions
         && hours[i] == parts[i].hundredths as real / 100.0
         && (earnings.Some? ==> earnings.value[i] == parts[i].coins)
  }

  /** The figures of each bucket. */
  function PartsOf(bookings: seq<Booking>, period: Period, buckets: seq<Bucket>): (parts: seq<Figures>)
    ensures |parts| == |buckets|
  {
    seq(|buckets|, i requires 0 <= i < |buckets| => TotalIn(bookings, period, buckets[i].key))
  }

  /** The three series hold the figures of their buckets; earnings are shown to mentors only. */
  ghost predicate Shows(
    sessions: seq<int>, hours: seq<real>, earnings: Option<seq<int>>,
    bookings: seq<Booking>, period: Period, buckets: seq<Bucket>)
  {
    Holds(sessions, hours, earnings, PartsOf(bookings, period, buckets))
  }

  /** `buildActivityOverview`; `mentor` says whether the viewer is one. */
  method BuildActivityOverview(bookings: seq<Booking>, period: Period, mentor: bool, now: int)
    returns (sessions: seq<int>, hoursLearned: seq<real>, earnings: Option<seq<int>>)
    requires -EPOCH_DAYS <= IstDay(now) && 100 <= DateOf(IstDay(now)).year
    ensures Shows(sessions, hoursLearned, earnings, bookings, period, BucketsFor(period, DateOf(IstDay(now))))
    ensures earnings.Some? <==> mentor
  {
    var buckets := BuildBuckets(period, now);
    BucketsDistinct(period, now);
    var hours: seq<real>;
    sessions, hours, earnings := Accumulate(bookings, period, mentor, buckets);
    hoursLearned := seq(|hours|, i requires 0 <= i < |hours| => ToFixed2(hours[i]));
    ShownHoursAreRounded(sessions, hours, earnings, bookings, period, buckets);
    assert hoursLearned == hours;
  }

  lemma ShownHoursAreRounded(
    sessions: seq<int>, hours: seq<real>, earnings: Option<seq<int>>,
    bookings: seq<Booking>, period: Period, buckets: seq<Bucket>)
    requires Shows(sessions, hours, earnings, bookings, period, buckets)
    ensures forall i :: 0 <= i < |hours| ==> ToFixed2(hours[i]) == hours[i]
  {
    forall i | 0 <= i < |hours|
      ensures ToFixed2(hours[i]) == hours[i]
    {
      TwoDecimals(TotalIn(bookings, period, buckets[i].key).hundredths);
    }
  }

  /** Rounding to two decimals keeps a number of hundredths. */
  lemma TwoDecimals(n: int)
    ensures ToFixed2(n as real / 100.0) == n as real / 100.0
  {
    RoundExact(n as real / 100.0 * 100.0, n);
  }

  lemma RoundExact(x: real, n: int)
    requires x == n as real
    ensures Round(x) == n
  {
  }

  /** The accumulation loop, for any buckets whose keys differ. */
  method Accumulate(bookings: seq<Booking>, period: Period, mentor: bool, buckets: seq<Bucket>)
    returns (sessions: seq<int>, hours: seq<real>, earnings: Option<seq<int>>)
    requires KeysDiffer(buckets)
    ensures Shows(sessions, hours, earnings, bookings, period, buckets)
    ensures earnings.Some? <==> mentor
  {
    var bucketLookup := LookupOf(buckets);
    sessions := seq(|buckets|, _ => 0);
    hours := seq(|buckets|, _ => 0.0);
    earnings := if mentor then Some(seq(|buckets|, _ => 0)) else None;
    for k := 0 to |bookings|
      invariant Shows(sessions, hours, earnings, bookings[..k], period, buckets)
      invariant earnings.Some? <==> mentor
    {
      var booking := bookings[k];
      ghost var before := bookings[..k];
      assert bookings[..k + 1] == before + [booking];
      var key := KeyOf(period, booking.start);
      if !Counted(booking) || key !in bucketLookup {
        ShowsUnchanged(sessions, hours, earnings, before, period, buckets, booking);
        continue;
      }
      var index := bucketLookup[key];
      ShowsOneMore(sessions, hours, earnings, before, period, buckets, booking, index);
      sessions := sessions[index := sessions[index] + 1];
      hours := hours[index := hours[index] + ToFixed2(Hours(booking))];
      if earnings.Some? {
        earnings := Some(earnings.value[index := earnings.value[index] + NetCoins(booking)]);
      }
    }
    assert bookings[..|bookings|] == bookings;
  }

  /** A booking that is not counted, or starts in no bucket, changes nothing. */
  lemma ShowsUnchanged(
    sessions: seq<int>, hours: seq<real>, earnings: Option<seq<int>>,
    before: seq<Booking>, period: Period, buckets: seq<Bucket>, b: Booking)
    requires Shows(sessions, hours, earnings, before, period, buckets)
    requires forall i :: 0 <= i < |buckets| ==> !InBucket(b, period, buckets[i].key)
    ensures Shows(sessions, hours, earnings, before + [b], period, buckets)
  {
    forall i | 0 <= i < |buckets|
      ensures TotalIn(before + [b], period, buckets[i].key) == TotalIn(before, period, buckets[i].key)
    {
      TotalSnoc(before, b, period, buckets[i].key);
    }
  }

  /** A counted booking changes the figures of its bucket by its share. */
  lemma ShowsOneMore(
    sessions: seq<int>, hours: seq<real>, earnings: Option<seq<int>>,
    before: seq<Booking>, period: Period, buckets: seq<Bucket>, b: Booking, index: nat)
    requires Shows(sessions, hours, earnings, before, period, buckets)
    requires KeysDiffer(buckets) && index < |buckets| && InBucket(b, period, buckets[index].key)
    ensures Shows(sessions[index := sessions[index] + Share(b).sessions],
                  hours[index := hours[index] + Share(b).hundredths as real / 100.0],
                  if earnings.Some? then Some(earnings.value[index := earnings.value[index] + Share(b).coins]) else None,
                  before + [b], period, buckets)
  {
    forall i | 0 <= i < |buckets|
      ensures TotalIn(before + [b], period, buckets[i].key)
           == if i == index then Plus(TotalIn(before, period, buckets[i].key), Share(b))
              else TotalIn(before, period, buckets[i].key)
    {
      TotalSnoc(before, b, period, buckets[i].key);
    }
  }

  /** The index of each key. */
  method LookupOf(buckets: seq<Bucket>) returns (bucketLookup: map<Key, nat>)
    requires KeysDiffer(buckets)
    ensures forall k :: k in bucketLookup ==> bucketLookup[k] < |buckets| && buckets[bucketLookup[k]].key == k
    ensures forall i :: 0 <= i < |buckets| ==> buckets[i].key in bucketLookup && bucketLookup[buckets[i].key] == i
  {
    bucketLookup := map[];
    for n := 0 to |buckets|
      invariant forall k :: k in bucketLookup ==> bucketLookup[k] < n && buckets[bucketLookup[k]].key == k
      invariant forall i :: 0 <= i < n ==> buckets[i].key in bucketLookup && bucketLookup[buckets[i].key] == i
    {
      bucketLookup := bucketLookup[buckets[n].key := n];
    }
  }

  // ---- totals ---------------------------------------------------------------------------------

  /** The figures of the completed paid sessions that start in one of the first `n` buckets. */
  function TotalInFirst(bookings: seq<Booking>, period: Period, buckets: seq<Bucket>, n: nat): Figures
    requires n <= |buckets|
  {
    if bookings == [] then Figures(0, 0, 0)
    else
      var b := bookings[|bookings| - 1];
      var t := TotalInFirst(bookings[..|bookings| - 1], period, buckets, n);
      if Counted(b) && KeyAmong(buckets, n, KeyOf(period, b.start)) then Plus(t, Share(b)) else t
  }

  /** The figures of the completed paid sessions that start between the two instants. */
  function TotalBetween(bookings: seq<Booking>, from: int, to: int): Figures {
    if bookings == [] then Figures(0, 0, 0)
    else
      var b := bookings[|bookings| - 1];
      var t := TotalBetween(bookings[..|bookings| - 1], from, to);
      if Counted(b) && from <= b.start <= to then Plus(t, Share(b)) else t
  }

  /** One more bucket adds its own sessions, and no session twice. */
  lemma {:induction false} FirstGrows(bookings: seq<Booking>, period: Period, buckets: seq<Bucket>, n: nat)
    requires 0 < n <= |buckets| && !KeyAmong(buckets, n - 1, buckets[n - 1].key)
    ensures TotalInFirst(bookings, period, buckets, n)
         == Plus(TotalInFirst(bookings, period, buckets, n - 1), TotalIn(bookings, period, buckets[n - 1].key))
  {
    if bookings != [] {
      FirstGrows(bookings[..|bookings| - 1], period, buckets, n);
      KeyAmongStep(buckets, n, KeyOf(period, bookings[|bookings| - 1].start));
    }
  }

  lemma {:induction false} FirstEmpty(bookings: seq<Booking>, period: Period, buckets: seq<Bucket>)
    ensures TotalInFirst(bookings, period, buckets, 0) == Figures(0, 0, 0)
  {
    if bookings != [] {
      FirstEmpty(bookings[..|bookings| - 1], period, buckets);
    }
  }

  /** The buckets up to the `n`-th hold what starts between the start of the first and the end of the last. */
  lemma {:induction false} FirstIsBetween(bookings: seq<Booking>, period: Period, today: Date, n: nat)
    requires ValidDate(today) && 0 < n <= BucketCount(period, today)
    ensures var b := BucketsFor(period, today);
            TotalInFirst(bookings, period, b, n) == TotalBetween(bookings, b[0].start, b[n - 1].end)
  {
    if bookings != [] {
      FirstIsBetween(bookings[..|bookings| - 1], period, today, n);
      WindowExact(period, today, n, bookings[|bookings| - 1].start);
    }
  }

  function SumInts(s: seq<int>, n: nat): int
    requires n <= |s|
  {
    if n == 0 then 0 else SumInts(s, n - 1) + s[n - 1]
  }

  function SumReals(s: seq<real>, n: nat): real
    requires n <= |s|
  {
    if n == 0 then 0.0 else SumReals(s, n - 1) + s[n - 1]
  }

  /** The first `n` entries of the series sum up to the figures. */
  ghost predicate SumsTo(sessions: seq<int>, hours: seq<real>, earnings: Option<seq<int>>, n: nat, f: Figures)
    requires n <= |sessions| == |hours| && (earnings.Some? ==> n <= |earnings.value|)
  {
    && SumInts(sessions, n) == f.sessions
    && SumReals(hours, n) == f.hundredths as real / 100.0
    && (earnings.Some? ==> SumInts(earnings.value, n) == f.coins)
  }

  function SumFigures(parts: seq<Figures>, n: nat): Figures
    requires n <= |parts|
  {
    if n == 0 then Figures(0, 0, 0) else Plus(SumFigures(parts, n - 1), parts[n - 1])
  }

  lemma {:induction false} SeriesSum(
    sessions: seq<int>, hours: seq<real>, earnings: Option<seq<int>>, parts: seq<Figures>, n: nat)
    requires Holds(sessions, hours, earnings, parts) && n <= |parts|
    ensures SumsTo(sessions, hours, earnings, n, SumFigures(parts, n))
    decreases n
  {
    if n > 0 {
      SeriesSum(sessions, hours, earnings, parts, n - 1);
      HundredthsAdd(SumFigures(parts, n - 1), parts[n - 1]);
    }
  }

  lemma {:induction false} SumByGrowth(parts: seq<Figures>, grown: seq<Figures>, n: nat)
    requires |grown| == |parts| + 1 && n <= |parts| && grown[0] == Figures(0, 0, 0)
    requires forall k :: 0 <= k < |parts| ==> grown[k + 1] == Plus(grown[k], parts[k])
    ensures SumFigures(parts, n) == grown[n]
    decreases n
  {
    if n > 0 {
      SumByGrowth(parts, grown, n - 1);
      assert grown[n - 1 + 1] == Plus(grown[n - 1], parts[n - 1]);
    }
  }

  /** The figures of the first 0, 1, 2, ... buckets. */
  function GrownOf(bookings: seq<Booking>, period: Period, buckets: seq<Bucket>): seq<Figures> {
    seq(|buckets| + 1, k requires 0 <= k <= |buckets| => TotalInFirst(bookings, period, buckets, k))
  }

  lemma GrownStep(bookings: seq<Booking>, period: Period, buckets: seq<Bucket>, k: nat)
    requires k < |buckets| && KeysDiffer(buckets)
    ensures GrownOf(bookings, period, buckets)[k + 1]
         == Plus(GrownOf(bookings, period, buckets)[k], PartsOf(bookings, period, buckets)[k])
  {
    NotAmongEarlier(buckets, k + 1);
    FirstGrows(bookings, period, buckets, k + 1);
  }

  /** The buckets add up to all sessions that start in one of them: nothing is lost or counted twice. */
  lemma PartsAgree(bookings: seq<Booking>, period: Period, buckets: seq<Bucket>, n: nat)
    requires n <= |buckets| && KeysDiffer(buckets)
    ensures SumFigures(PartsOf(bookings, period, buckets), n) == TotalInFirst(bookings, period, buckets, n)
  {
    var parts, grown := PartsOf(bookings, period, buckets), GrownOf(bookings, period, buckets);
    FirstEmpty(bookings, period, buckets);
    forall k | 0 <= k < |parts|
      ensures grown[k + 1] == Plus(grown[k], parts[k])
    {
      GrownStep(bookings, period, buckets, k);
    }
    SumByGrowth(parts, grown, n);
  }

  lemma NotAmongEarlier(buckets: seq<Bucket>, n: nat)
    requires 0 < n <= |buckets| && KeysDiffer(buckets)
    ensures !KeyAmong(buckets, n - 1, buckets[n - 1].key)
  {
  }

  lemma HundredthsAdd(f: Figures, g: Figures)
    ensures f.hundredths as real / 100.0 + g.hundredths as real / 100.0 == Plus(f, g).hundredths as real / 100.0
  {
  }

  /**
    What the overview shows adds up, over its first `n` buckets, to the completed paid
    sessions that start between the start of the first and the end of the last of them,
    to their rounded hours and to their net coins.
   */
  lemma OverviewTotals(
    sessions: seq<int>, hours: seq<real>, earnings: Option<seq<int>>,
    bookings: seq<Booking>, period: Period, now: int, n: nat)
    requires -EPOCH_DAYS <= IstDay(now) && 0 < n <= BucketCount(period, DateOf(IstDay(now)))
    requires Shows(sessions, hours, earnings, bookings, period, BucketsFor(period, DateOf(IstDay(now))))
    ensures var b := BucketsFor(period, DateOf(IstDay(now)));
            SumsTo(sessions, hours, earnings, n, TotalBetween(bookings, b[0].start, b[n - 1].end))
  {
    var b := BucketsFor(period, DateOf(IstDay(now)));
    BucketsDistinct(period, now);
    SeriesSum(sessions, hours, earnings, PartsOf(bookings, period, b), n);
    PartsAgree(bookings, period, b, n);
    FirstIsBetween(bookings, period, DateOf(IstDay(now)), n);
  }

  // ---- in plain numbers -----------------------------------------------------------------------

  /**
    What a session contributes: its length to the nearest hundredth of an hour, which is
    36 seconds, and 85 percent of its coins to the nearest coin.
   */
  lemma ShareExactly(b: Booking)
    ensures Share(b).sessions == 1
    ensures if b.end >= b.start then -18_000 <= 36_000 * Share(b).hundredths - (b.end - b.start) <= 18_000
            else Share(b).hundredths == 0
    ensures var worth := if b.paymentType == Coins then b.total else b.total * 2.0;
            -0.5 <= Share(b).coins as real - 0.85 * worth <= 0.5
  {
    RoundNear(Hours(b) * 100.0);
  }

  /** The completed paid sessions of the list that start between the two instants. */
  ghost function PaidSessions(bookings: seq<Booking>, from: int, to: int): set<int> {
    set i | 0 <= i < |bookings|
            && bookings[i].status == Completed && bookings[i].paymentStatus == Paid && from <= bookings[i].start <= to
  }

  /** The session total is their number. */
  lemma {:induction false} SessionsCounted(bookings: seq<Booking>, from: int, to: int)
    ensures TotalBetween(bookings, from, to).sessions == |PaidSessions(bookings, from, to)|
  {
    if bookings == [] {
      assert PaidSessions(bookings, from, to) == {};
    } else {
      var rest, last := bookings[..|bookings| - 1], |bookings| - 1;
      SessionsCounted(rest, from, to);
      assert PaidSessions(bookings, from, to)
          == PaidSessions(rest, from, to) + if last in PaidSessions(bookings, from, to) then {last} else {};
    }
  }
}
