/**
  What the availability test of a reschedule means: which new sessions lie inside the
  window of a rule, and outside its breaks, at every instant; and what it means for a slot
  to be on offer.
 */
module Windows {
  import opened Calendar
  import opened Availability
  import opened Slots

  /** The minute belongs to the window of the rule and to none of its breaks. */
  predicate OpenAt(r: Rule, minute: int) {
    && ToMinutes(r.startTime) <= minute < ToMinutes(r.endTime)
    && !exists b | b in r.breakTimes :: ToMinutes(b.startTime) <= minute < ToMinutes(b.endTime)
  }

  ghost predicate OpenThroughout(r: Rule, from: int, to: int) {
    forall ms :: from <= ms < to ==> OpenAt(r, IstMinute(ms))
  }

  /** The instant of a minute of an IST day. */
  function AtIst(day: int, minute: int): int {
    day * DAY_MS + minute * MINUTE_MS - IST_OFFSET_MS
  }

  /** The first full minute at or after the instant. */
  function NextMinute(ms: int): int {
    -(-ms / MINUTE_MS) * MINUTE_MS
  }

  lemma NextMinuteNear(ms: int)
    ensures ms <= NextMinute(ms) < ms + MINUTE_MS && NextMinute(ms) % MINUTE_MS == 0
  {
  }

  /** The minute of an instant, counted from the midnight its day starts with. */
  lemma MinuteOfDay(day: int, ms: int)
    requires AtIst(day, 0) <= ms < AtIst(day + 1, 0)
    ensures IstDay(ms) == day && IstMinute(ms) == (ms - AtIst(day, 0)) / MINUTE_MS
  {
  }

  lemma WithinDay(ms: int)
    ensures AtIst(IstDay(ms), 0) <= ms < AtIst(IstDay(ms) + 1, 0)
    ensures IstMinute(ms) == (ms - AtIst(IstDay(ms), 0)) / MINUTE_MS
  {
    MinuteOfDay(IstDay(ms), ms);
  }

  lemma MinutesInOrder(from: int, ms: int, to: int)
    requires from <= ms < to && to % MINUTE_MS == 0 && IstDay(from) == IstDay(to)
    ensures IstMinute(from) <= IstMinute(ms) < IstMinute(to)
  {
    WithinDay(from);
    WithinDay(to);
    MinuteOfDay(IstDay(from), ms);
    var base := AtIst(IstDay(from), 0);
    assert to - base == (to / MINUTE_MS - IstDay(from) * 1440 + IST_OFFSET_MINUTES) * MINUTE_MS;
    QuotientsInOrder(from - base, ms - base, to / MINUTE_MS - IstDay(from) * 1440 + IST_OFFSET_MINUTES);
  }

  lemma QuotientsInOrder(x: int, y: int, q: int)
    requires x <= y < q * MINUTE_MS
    ensures x / MINUTE_MS <= y / MINUTE_MS < q && q * MINUTE_MS / MINUTE_MS == q
  {
  }

  /** Every minute between two instants of a day is met by some instant between them. */
  lemma InstantInMinute(from: int, to: int, minute: nat) returns (ms: int)
    requires from < to && IstDay(from) == IstDay(NextMinute(to))
    requires IstMinute(from) <= minute < IstMinute(NextMinute(to))
    ensures from <= ms < to && IstMinute(ms) == minute
  {
    NextMinuteNear(to);
    WithinDay(from);
    WithinDay(NextMinute(to));
    var start := AtIst(IstDay(from), minute);
    ms := if from <= start then start else from;
    MinuteOfDay(IstDay(from), ms);
  }

  /** An interval that reaches another day contains the last minute of its first day, which no rule covers. */
  lemma LastMinuteOfDay(from: int, to: int) returns (ms: int)
    requires from < to && IstDay(from) != IstDay(NextMinute(to))
    ensures from <= ms < to && IstMinute(ms) == 1439
  {
    NextMinuteNear(to);
    WithinDay(from);
    WithinDay(NextMinute(to));
    var start := AtIst(IstDay(from), 1439);
    ms := if from <= start then start else from;
    MinuteOfDay(IstDay(from), ms);
  }

  predicate ProperBreaks(r: Rule) {
    forall b :: b in r.breakTimes ==> ToMinutes(b.startTime) < ToMinutes(b.endTime)
  }

  lemma ValidRuleSpans(r: Rule)
    requires ValidRule(r)
    ensures FirstSpanError(Spans(r.breakTimes), ToMinutes(r.startTime), ToMinutes(r.endTime)).None?
  {
  }

  lemma SpansProper(breaks: seq<Break>, lo: nat, hi: nat)
    requires FirstSpanError(Spans(breaks), lo, hi).None?
    ensures forall i :: 0 <= i < |breaks| ==>
              lo <= ToMinutes(breaks[i].startTime) < ToMinutes(breaks[i].endTime) <= hi
  {
    NoSpanError(Spans(breaks), lo, hi);
    forall i | 0 <= i < |breaks|
      ensures lo <= ToMinutes(breaks[i].startTime) < ToMinutes(breaks[i].endTime) <= hi
    {
      assert Spans(breaks)[i] in Spans(breaks);
    }
  }

  /** Stored rules have proper breaks. */
  lemma ValidRuleBreaks(r: Rule)
    requires ValidRule(r)
    ensures ProperBreaks(r)
  {
    ValidRuleSpans(r);
    SpansProper(r.breakTimes, ToMinutes(r.startTime), ToMinutes(r.endTime));
  }

  lemma FittingIsOpen(r: Rule, from: int, to: int)
    requires from < to && FitsRule(r, from, NextMinute(to)) && IstDay(from) == IstDay(NextMinute(to))
    ensures OpenThroughout(r, from, to)
  {
    NextMinuteNear(to);
    ToIstHHMMIsTime(from);
    ToIstHHMMIsTime(NextMinute(to));
    forall ms | from <= ms < to
      ensures OpenAt(r, IstMinute(ms))
    {
      MinutesInOrder(from, ms, NextMinute(to));
    }
  }

  predicate Meets(b: Break, first: int, end: int) {
    first < ToMinutes(b.endTime) && end > ToMinutes(b.startTime)
  }

  lemma MeetingBreakCloses(r: Rule, b: Break, from: int, to: int)
    requires from < to && IstDay(from) == IstDay(NextMinute(to)) && b in r.breakTimes
    requires ToMinutes(b.startTime) < ToMinutes(b.endTime)
    requires IstMinute(from) < IstMinute(NextMinute(to)) && Meets(b, IstMinute(from), IstMinute(NextMinute(to)))
    ensures !OpenThroughout(r, from, to)
  {
    var first := IstMinute(from);
    var ms := InstantInMinute(from, to, if first < ToMinutes(b.startTime) then ToMinutes(b.startTime) else first);
    assert !OpenAt(r, IstMinute(ms));
  }

  lemma OpenIsFitting(r: Rule, from: int, to: int)
    requires from < to && ProperBreaks(r) && OpenThroughout(r, from, to)
    requires IstDay(from) == IstDay(NextMinute(to))
    ensures FitsRule(r, from, NextMinute(to))
  {
    NextMinuteNear(to);
    ToIstHHMMIsTime(from);
    ToIstHHMMIsTime(NextMinute(to));
    MinutesInOrder(from, from, NextMinute(to));
    var first, end := IstMinute(from), IstMinute(NextMinute(to));
    assert OpenAt(r, first);
    var last := InstantInMinute(from, to, end - 1);
    assert OpenAt(r, end - 1);
    if exists b | b in r.breakTimes :: Meets(b, first, end) {
      var b :| b in r.breakTimes && Meets(b, first, end);
      MeetingBreakCloses(r, b, from, to);
    }
  }

  /** An interval, the right way round, that lies inside the window and outside the breaks at every instant. */
  ghost predicate OpenFor(r: Rule, from: int, to: int) {
    from < to && OpenThroughout(r, from, to)
  }

  /**
    The test compares clock times, drops seconds and does not compare the two ends.  A new
    session is one the rule is open for exactly when it ends after it starts, on the same
    day, and passes the test with its end rounded up to a full minute.
   */
  lemma OpenForExactly(r: Rule, from: int, to: int)
    requires ProperBreaks(r)
    ensures OpenFor(r, from, to)
            <==> from < to && IstDay(from) == IstDay(NextMinute(to)) && FitsRule(r, from, NextMinute(to))
  {
    if from < to && IstDay(from) != IstDay(NextMinute(to)) {
      var ms := LastMinuteOfDay(from, to);
      assert !OpenAt(r, IstMinute(ms));
    } else if OpenFor(r, from, to) {
      OpenIsFitting(r, from, to);
    } else if from < to && FitsRule(r, from, NextMinute(to)) {
      FittingIsOpen(r, from, to);
    }
  }

  /**
    The same for the rules a reschedule finds: one of them is open for the new session exactly
    when it ends after it starts, on the same day, and passes the availability test with its
    end rounded up to a full minute.
   */
  lemma OpenRuleFoundExactly(rules: Rules, mentor: MentorId, from: int, to: int)
    requires forall id :: id in rules ==> ValidRule(rules[id])
    ensures (exists id | id in FindActive(rules, mentor, from) :: OpenFor(rules[id], from, to))
            <==> from < to && IstDay(from) == IstDay(NextMinute(to))
                 && WithinAvailability(rules, mentor, from, NextMinute(to))
  {
    forall id | id in FindActive(rules, mentor, from)
      ensures OpenFor(rules[id], from, to)
              <==> from < to && IstDay(from) == IstDay(NextMinute(to)) && FitsRule(rules[id], from, NextMinute(to))
    {
      ValidRuleBreaks(rules[id]);
      OpenForExactly(rules[id], from, to);
    }
  }

  /** Every stored rule accepts the interval from its closing back to its opening on the same day. */
  lemma InvertedSessionFits(r: Rule, day: int)
    requires ValidRule(r)
    ensures var from, to := AtIst(day, ToMinutes(r.endTime)), AtIst(day, ToMinutes(r.startTime));
            to < from && FitsRule(r, from, to)
  {
    var from, to := AtIst(day, ToMinutes(r.endTime)), AtIst(day, ToMinutes(r.startTime));
    MinuteOfDay(day, from);
    MinuteOfDay(day, to);
    ToIstHHMMIsTime(from);
    ToIstHHMMIsTime(to);
    ValidRuleSpans(r);
    SpansProper(r.breakTimes, ToMinutes(r.startTime), ToMinutes(r.endTime));
  }

  /** Every rule without breaks accepts a session from its opening on one day to its closing on the next. */
  lemma OvernightSessionFits(r: Rule, day: int)
    requires r.breakTimes == []
    ensures var from, to := AtIst(day, ToMinutes(r.startTime)), AtIst(day + 1, ToMinutes(r.endTime));
            FitsRule(r, from, to) && !OpenThroughout(r, from, to)
  {
    var from, to := AtIst(day, ToMinutes(r.startTime)), AtIst(day + 1, ToMinutes(r.endTime));
    MinuteOfDay(day, from);
    MinuteOfDay(day + 1, to);
    ToIstHHMMIsTime(from);
    ToIstHHMMIsTime(to);
    NextMinuteOfMinute(day + 1, ToMinutes(r.endTime));
    OpenForExactly(r, from, to);
  }

  lemma NextMinuteOfMinute(day: int, minute: int)
    ensures NextMinute(AtIst(day, minute)) == AtIst(day, minute)
  {
    NextMinuteNear(AtIst(day, minute));
    assert AtIst(day, minute) == (day * 1440 + minute - IST_OFFSET_MINUTES) * MINUTE_MS;
  }

  // ---- the slots on offer ------------------------------------------------------------------------

  predicate Within(t: int, from: int, to: int) {
    from <= t < to
  }

  /** A break shares a minute with the window. */
  ghost predicate SharesMinute(b: Break, from: int, to: int) {
    exists m: int :: Within(m, ToMinutes(b.startTime), ToMinutes(b.endTime)) && Within(m, from, to)
  }

  /** A booking shares an instant with the interval, or is the wrong way round and inside it. */
  ghost predicate InTheWay(b: Booked, from: int, to: int) {
    || (exists t: int :: Within(t, Instant(b.start), Instant(b.end)) && Within(t, from, to))
    || from < Instant(b.end) <= Instant(b.start) < to
  }

  lemma BreaksExactly(r: Rule, m: nat)
    requires ProperBreaks(r) && r.slotDuration > 0
    ensures OverlapsBreak(r, m) <==> exists b | b in r.breakTimes :: SharesMinute(b, m, m + r.slotDuration)
  {
    forall b | b in r.breakTimes
      ensures SharesMinute(b, m, m + r.slotDuration)
              <==> m < ToMinutes(b.endTime) && m + r.slotDuration > ToMinutes(b.startTime)
    {
      var first := if m < ToMinutes(b.startTime) then ToMinutes(b.startTime) else m;
      assert Within(first, ToMinutes(b.startTime), ToMinutes(b.endTime)) && Within(first, m, m + r.slotDuration)
        <==> m < ToMinutes(b.endTime) && m + r.slotDuration > ToMinutes(b.startTime);
    }
  }

  lemma InTheWayExactly(b: Booked, from: int, to: int)
    requires from < to
    ensures InTheWay(b, from, to) <==> from < Instant(b.end) && to > Instant(b.start)
  {
    var first := if from < Instant(b.start) then Instant(b.start) else from;
    if from < Instant(b.end) && to > Instant(b.start) && Instant(b.start) < Instant(b.end) {
      assert Within(first, Instant(b.start), Instant(b.end)) && Within(first, from, to);
    }
  }

  lemma BookingsExactly(r: Rule, d: SlotDate, existing: seq<Booked>, m: nat)
    requires r.slotDuration > 0
    ensures IstToUtc(d, m) < IstToUtc(d, m + r.slotDuration)
    ensures OverlapsBooking(r, d, existing, m)
            <==> exists b | b in existing :: InTheWay(b, IstToUtc(d, m), IstToUtc(d, m + r.slotDuration))
  {
    var from, to := IstToUtc(d, m), IstToUtc(d, m + r.slotDuration);
    forall b | b in existing
      ensures InTheWay(b, from, to) <==> from < Instant(b.end) && to > Instant(b.start)
    {
      InTheWayExactly(b, from, to);
    }
  }

  /**
    Offered by a valid rule are exactly the windows of its grid that end by its end, start
    after now, share no minute with a break and no instant with a booking.
   */
  lemma OfferedClearExactly(r: Rule, d: SlotDate, existing: seq<Booked>, now: int, s: Slot)
    requires ValidRule(r)
    ensures Steps(r)
    ensures s in OfferedSlots(r, d, existing, now) <==>
              && r.status && s.end == s.start + r.slotDuration <= ToMinutes(r.endTime)
              && (exists k: nat :: OnGrid(r, k, s.start))
              && IstToUtc(d, s.start) > now
              && (forall b :: b in r.breakTimes ==> !SharesMinute(b, s.start, s.end))
              && (forall b :: b in existing ==> !InTheWay(b, IstToUtc(d, s.start), IstToUtc(d, s.end)))
  {
    ValidRuleSteps(r);
    ValidRuleBreaks(r);
    ValidRuleHasSlots(r);
    OfferedExactly(r, d, existing, now, s);
    BreaksExactly(r, s.start);
    BookingsExactly(r, d, existing, s.start);
  }

  lemma ValidRuleHasSlots(r: Rule)
    requires ValidRule(r)
    ensures r.slotDuration > 5
  {
  }
}
