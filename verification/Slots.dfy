/**
  The bookable slots a rule yields on a date, and the availability test that a
  rescheduled session has to pass.
 */
module Slots {
  import opened Decimal
  import opened Calendar
  import opened Availability

  /** Start and end as minutes of an IST day. */
  datatype Slot = Slot(start: nat, end: nat) {
    /** The pair of "HH:MM" strings the slot is published as. */
    function Times(): (string, string) {
      (ToHHMM(start), ToHHMM(end))
    }
  }

  /** A stored booking; its times are compared as ISO strings. */
  type IsoStamp = s: Stamp | ValidStamp(s) && s.date.year <= 9999 witness Stamp(Date(1970, 1, 1), 0, 0, 0, 0)
  datatype Booked = Booked(start: IsoStamp, end: IsoStamp)

  type SlotDate = d: Date | ValidDate(d) && d.year <= 9999 witness Date(1970, 1, 1)

  // ---- instants of slots stay within the years of canonical timestamps --------------------

  const ISO_START: int := -EPOCH_DAYS * DAY_MS
  const ISO_END: int := 2_932_897 * DAY_MS

  lemma IsoYears(ms: int)
    requires ISO_START <= ms < ISO_END
    ensures StampAt(ms).date.year <= 9999
  {
    var d := DateOf(ms / DAY_MS);
    assert DayNumber(Date(10000, 1, 1)) == 2_932_897;
    DateOrder(d, Date(10000, 1, 1));
  }

  lemma SlotInstantInRange(d: SlotDate, minutes: nat)
    requires minutes < 1440
    ensures ISO_START <= IstToUtc(d, minutes) < ISO_END
  {
    var y := if d.year <= 99 then 1900 + d.year else d.year;
    var length := MonthLength(d.year, d.month);
    MonthOrder(y, d.month, 13);
    MonthsFillYear(y);
    assert length <= MonthLength(y, d.month) + 1;
    YearOrder(0, y);
    if y < 9999 {
      YearOrder(y, 9999);
    }
    assert DaysBeforeYear(9999) == 2_932_532 + EPOCH_DAYS;
    assert d.year > 99 ==> length == MonthLength(y, d.month);
  }

  function IsoAt(ms: int): string
    requires ISO_START <= ms
  {
    Iso(StampAt(ms))
  }

  // ---- which windows are offered ---------------------------------------------------------------

  predicate OverlapsBreak(r: Rule, m: nat) {
    exists b | b in r.breakTimes :: m < ToMinutes(b.endTime) && m + r.slotDuration > ToMinutes(b.startTime)
  }

  predicate OverlapsBooking(r: Rule, d: SlotDate, existing: seq<Booked>, m: nat) {
    exists b | b in existing ::
      IstToUtc(d, m) < Instant(b.end) && IstToUtc(d, m + r.slotDuration) > Instant(b.start)
  }

  /** The window starts after `now` and avoids every break and every booking. */
  predicate Free(r: Rule, d: SlotDate, existing: seq<Booked>, now: int, m: nat) {
    IstToUtc(d, m) > now && !OverlapsBreak(r, m) && !OverlapsBooking(r, d, existing, m)
  }

  /** The grid of the rule moves forward. */
  predicate Steps(r: Rule) {
    r.slotDuration + r.bufferTime > 0
  }

  /** The windows of length `dur` that start at `cur`, `cur + step`, ..., end by `end` and are free. */
  function FreeWindows(free: nat -> bool, dur: nat, step: nat, end: nat, cur: nat): seq<Slot>
    requires step > 0
    decreases end + 1 - cur
  {
    if cur + dur > end then []
    else (if free(cur) then [Slot(cur, cur + dur)] else []) + FreeWindows(free, dur, step, end, cur + step)
  }

  function FreeAt(r: Rule, d: SlotDate, existing: seq<Booked>, now: int): nat -> bool {
    (m: nat) => Free(r, d, existing, now, m)
  }

  function SlotsFrom(r: Rule, d: SlotDate, existing: seq<Booked>, now: int, cur: nat): seq<Slot>
    requires Steps(r)
  {
    FreeWindows(FreeAt(r, d, existing, now), r.slotDuration, r.slotDuration + r.bufferTime, ToMinutes(r.endTime), cur)
  }

  function OfferedSlots(r: Rule, d: SlotDate, existing: seq<Booked>, now: int): seq<Slot>
    requires Steps(r)
  {
    if r.status then SlotsFrom(r, d, existing, now, ToMinutes(r.startTime)) else []
  }

  /** The string comparisons of the loop decide overlap of instants. */
  lemma StringOverlap(d: SlotDate, from: nat, to: nat, b: Booked)
    requires from < 1440 && to < 1440
    ensures ISO_START <= IstToUtc(d, from) && ISO_START <= IstToUtc(d, to)
    ensures Before(IsoAt(IstToUtc(d, from)), Iso(b.end)) && Before(Iso(b.start), IsoAt(IstToUtc(d, to)))
            <==> IstToUtc(d, from) < Instant(b.end) && IstToUtc(d, to) > Instant(b.start)
  {
    SlotInstantInRange(d, from);
    SlotInstantInRange(d, to);
    IsoYears(IstToUtc(d, from));
    IsoYears(IstToUtc(d, to));
    IsoOrder(StampAt(IstToUtc(d, from)), b.end);
    IsoOrder(b.start, StampAt(IstToUtc(d, to)));
  }

  predicate StringsOverlapBooking(startIso: string, endIso: string, existing: seq<Booked>) {
    exists b | b in existing :: Before(startIso, Iso(b.end)) && Before(Iso(b.start), endIso)
  }

  lemma StringsDecideBooking(r: Rule, d: SlotDate, existing: seq<Booked>, m: nat)
    requires m + r.slotDuration < 1440
    ensures ISO_START <= IstToUtc(d, m) && ISO_START <= IstToUtc(d, m + r.slotDuration)
    ensures StringsOverlapBooking(IsoAt(IstToUtc(d, m)), IsoAt(IstToUtc(d, m + r.slotDuration)), existing)
            == OverlapsBooking(r, d, existing, m)
  {
    SlotInstantInRange(d, m);
    SlotInstantInRange(d, m + r.slotDuration);
    forall b | b in existing
      ensures Before(IsoAt(IstToUtc(d, m)), Iso(b.end)) && Before(Iso(b.start), IsoAt(IstToUtc(d, m + r.slotDuration)))
        <==> IstToUtc(d, m) < Instant(b.end) && IstToUtc(d, m + r.slotDuration) > Instant(b.start)
    {
      StringOverlap(d, m, m + r.slotDuration, b);
    }
  }

  lemma FreeWindowsStep(free: nat -> bool, dur: nat, step: nat, end: nat, cur: nat, acc: seq<Slot>)
    requires step > 0 && cur + dur <= end
    ensures acc + FreeWindows(free, dur, step, end, cur)
         == (if free(cur) then acc + [Slot(cur, cur + dur)] else acc) + FreeWindows(free, dur, step, end, cur + step)
  {
  }

  /** A name for the test that does not unfold by itself. */
  lemma NameFree(r: Rule, d: SlotDate, existing: seq<Booked>, now: int) returns (free: nat -> bool)
    requires Steps(r)
    ensures r.status ==>
              OfferedSlots(r, d, existing, now)
              == FreeWindows(free, r.slotDuration, r.slotDuration + r.bufferTime,
                             ToMinutes(r.endTime), ToMinutes(r.startTime))
    ensures forall m: nat {:trigger Free(r, d, existing, now, m)} :: free(m) == Free(r, d, existing, now, m)
  {
    free := FreeAt(r, d, existing, now);
  }

  /** The booking test of the loop: it compares ISO strings. */
  method TestBookings(r: Rule, d: SlotDate, existing: seq<Booked>, m: nat) returns (overlapsBooking: bool)
    requires m + r.slotDuration < 1440
    ensures overlapsBooking == OverlapsBooking(r, d, existing, m)
  {
    StringsDecideBooking(r, d, existing, m);
    var slotStartIso := IsoAt(IstToUtc(d, m));
    var slotEndIso := IsoAt(IstToUtc(d, m + r.slotDuration));
    overlapsBooking := StringsOverlapBooking(slotStartIso, slotEndIso, existing);
  }

  /** The tests a window has to pass, in the order the loop applies them. */
  method TestWindow(r: Rule, d: SlotDate, existing: seq<Booked>, now: int, m: nat) returns (free: bool)
    requires m + r.slotDuration < 1440
    ensures free == Free(r, d, existing, now, m)
  {
    if IstToUtc(d, m) <= now {
      return false;
    }
    var overlapsBreak := OverlapsBreak(r, m);
    var overlapsBooking := TestBookings(r, d, existing, m);
    return !overlapsBreak && !overlapsBooking;
  }

  /** `AvailabilitySlotUtil.computeSlotsForDate`. */
  method ComputeSlotsForDate(r: Rule, d: SlotDate, existing: seq<Booked>, now: int) returns (slots: seq<Slot>)
    requires Steps(r)
    ensures slots == OfferedSlots(r, d, existing, now)
  {
    if !r.status {
      return [];
    }
    slots := [];
    var currentMin: nat := ToMinutes(r.startTime);
    var endMin := ToMinutes(r.endTime);
    ghost var step := r.slotDuration + r.bufferTime;
    ghost var free := NameFree(r, d, existing, now);
    while currentMin + r.slotDuration <= endMin
      invariant slots + FreeWindows(free, r.slotDuration, step, endMin, currentMin) == OfferedSlots(r, d, existing, now)
      decreases endMin + 1 - currentMin
    {
      FreeWindowsStep(free, r.slotDuration, step, endMin, currentMin, slots);
      var slotStartMin := currentMin;
      var slotEndMin := currentMin + r.slotDuration;
      var offered := TestWindow(r, d, existing, now, slotStartMin);
      if offered {
        slots := slots + [Slot(slotStartMin, slotEndMin)];
      }
      currentMin := currentMin + r.slotDuration + r.bufferTime;
    }
  }

  // ---- what the offered slots are -----------------------------------------------------------------

  /** `m` lies `k` grid steps after `cur`. */
  predicate IsWindow(step: int, cur: int, k: nat, m: int) {
    m == cur + k * step
  }

  lemma WindowStep(step: int, cur: int, next: int, m: int)
    requires next == cur + step
    ensures (exists k: nat :: IsWindow(step, cur, k, m)) <==> m == cur || exists k: nat :: IsWindow(step, next, k, m)
  {
    assert IsWindow(step, cur, 0, cur);
    if exists k: nat :: IsWindow(step, next, k, m) {
      var k: nat :| IsWindow(step, next, k, m);
      assert k * step + step == (k + 1) * step;
      assert IsWindow(step, cur, k + 1, m);
    }
    if exists k: nat :: IsWindow(step, cur, k, m) {
      var k: nat :| IsWindow(step, cur, k, m);
      if k > 0 {
        assert (k - 1) * step + step == k * step;
        assert IsWindow(step, next, k - 1, m);
      }
    }
  }

  lemma {:induction false} FreeWindowsExactly(
    free: nat -> bool, dur: nat, step: nat, end: nat, cur: nat, s: Slot)
    requires step > 0
    ensures s in FreeWindows(free, dur, step, end, cur) <==>
              && s.end == s.start + dur <= end
              && free(s.start)
              && exists k: nat :: IsWindow(step, cur, k, s.start)
    decreases end + 1 - cur
  {
    var next := cur + step;
    WindowStep(step, cur, next, s.start);
    if cur + dur <= end {
      FreeWindowsExactly(free, dur, step, end, next, s);
    } else if exists k: nat :: IsWindow(step, cur, k, s.start) {
      var k: nat :| IsWindow(step, cur, k, s.start);
      assert k * step >= 0;
    }
  }

  /** Minute `m` is the start of the `k`-th window of the rule: start + k * (duration + buffer). */
  predicate OnGrid(r: Rule, k: nat, m: int) {
    m == ToMinutes(r.startTime) + k * (r.slotDuration + r.bufferTime)
  }

  /** Offered are exactly the free windows of the grid that end by the end of the rule. */
  lemma OfferedExactly(r: Rule, d: SlotDate, existing: seq<Booked>, now: int, s: Slot)
    requires Steps(r)
    ensures s in OfferedSlots(r, d, existing, now) <==>
              && r.status
              && s.end == s.start + r.slotDuration <= ToMinutes(r.endTime)
              && Free(r, d, existing, now, s.start)
              && exists k: nat :: OnGrid(r, k, s.start)
  {
    var step, start := r.slotDuration + r.bufferTime, ToMinutes(r.startTime);
    assert forall k: nat :: OnGrid(r, k, s.start) == IsWindow(step, start, k, s.start);
    FreeWindowsExactly(FreeAt(r, d, existing, now), r.slotDuration, r.slotDuration + r.bufferTime,
                       ToMinutes(r.endTime), ToMinutes(r.startTime), s);
  }

  /** Any later slot starts at least `gap` minutes after an earlier one starts. */
  ghost predicate Spaced(s: seq<Slot>, gap: int) {
    forall i, j :: 0 <= i < j < |s| ==> s[i].start + gap <= s[j].start
  }

  lemma {:induction false} FreeWindowsSpaced(free: nat -> bool, dur: nat, step: nat, end: nat, cur: nat)
    requires step > 0
    ensures Spaced(FreeWindows(free, dur, step, end, cur), step)
    ensures forall s :: s in FreeWindows(free, dur, step, end, cur) ==> cur <= s.start
    decreases end + 1 - cur
  {
    if cur + dur <= end {
      var rest := FreeWindows(free, dur, step, end, cur + step);
      FreeWindowsSpaced(free, dur, step, end, cur + step);
      forall j | 0 <= j < |rest|
        ensures cur + step <= rest[j].start
      {
        assert rest[j] in rest;
      }
      assert FreeWindows(free, dur, step, end, cur) == (if free(cur) then [Slot(cur, cur + dur)] else []) + rest;
    }
  }

  /** The slots come in order, spaced by the buffer, inside the window of the rule and clear of its breaks. */
  lemma OfferedInOrder(r: Rule, d: SlotDate, existing: seq<Booked>, now: int)
    requires Steps(r)
    ensures var s := OfferedSlots(r, d, existing, now);
            forall i, j :: 0 <= i < j < |s| ==> s[i].end + r.bufferTime <= s[j].start
    ensures forall s :: s in OfferedSlots(r, d, existing, now) ==>
              ToMinutes(r.startTime) <= s.start <= s.end <= ToMinutes(r.endTime) && !OverlapsBreak(r, s.start)
  {
    FreeWindowsSpaced(FreeAt(r, d, existing, now), r.slotDuration, r.slotDuration + r.bufferTime,
                      ToMinutes(r.endTime), ToMinutes(r.startTime));
    var slots := OfferedSlots(r, d, existing, now);
    forall i | 0 <= i < |slots|
      ensures slots[i].end == slots[i].start + r.slotDuration
    {
      OfferedExactly(r, d, existing, now, slots[i]);
    }
    forall s | s in OfferedSlots(r, d, existing, now)
      ensures s.start <= s.end <= ToMinutes(r.endTime) && !OverlapsBreak(r, s.start)
    {
      OfferedExactly(r, d, existing, now, s);
    }
  }

  /** The published "HH:MM" strings of an offered slot denote its minutes. */
  lemma PublishedTimesExact(r: Rule, d: SlotDate, existing: seq<Booked>, now: int, s: Slot)
    requires Steps(r) && s in OfferedSlots(r, d, existing, now)
    ensures IsTime(s.Times().0) && ToMinutes(s.Times().0) == s.start
    ensures IsTime(s.Times().1) && ToMinutes(s.Times().1) == s.end
  {
    OfferedInOrder(r, d, existing, now);
    ToMinutesToHHMM(s.start);
    ToMinutesToHHMM(s.end);
  }

  // ---- slots of different rules ---------------------------------------------------------------------

  /** `findActiveByMentorIdAndDate(mentorId, instant)`: rules are looked up by the UTC date. */
  function FindActive(rules: Rules, mentor: MentorId, instant: int): set<RuleId> {
    set id | id in rules && rules[id].mentorId == mentor && rules[id].status && AppliesOn(rules[id], UtcDay(instant))
  }

  /** No slot of `a` on the date overlaps a slot of `b`. */
  ghost predicate SlotsApart(a: Rule, b: Rule, d: SlotDate, existing: seq<Booked>, now: int)
    requires Steps(a) && Steps(b)
  {
    forall s, t :: s in OfferedSlots(a, d, existing, now) && t in OfferedSlots(b, d, existing, now) ==>
      s.end <= t.start || t.end <= s.start
  }

  lemma SlotsOfRivalsApart(a: Rule, b: Rule, d: SlotDate, existing: seq<Booked>, now: int)
    requires !Conflict(a, b) && AppliesOn(a, DayNumber(d)) && AppliesOn(b, DayNumber(d))
    requires Steps(a) && Steps(b)
    ensures SlotsApart(a, b, d, existing, now)
  {
    OfferedInOrder(a, d, existing, now);
    OfferedInOrder(b, d, existing, now);
    assert Weekday(DayNumber(d)) in a.days && Weekday(DayNumber(d)) in b.days;
  }

  /**
    After any run of checked operations on the rule book, the slots that two different
    active rules of a mentor offer on a date never overlap.
   */
  lemma SlotsOfDifferentRulesApart(
    ops: seq<Op>, rules: Rules, i: RuleId, j: RuleId, d: SlotDate, existing: seq<Booked>, now: int)
    requires rules == Run(ops) && i in rules && j in rules && i != j && Rivals(rules[i], rules[j])
    requires AppliesOn(rules[i], DayNumber(d)) && AppliesOn(rules[j], DayNumber(d))
    ensures Steps(rules[i]) && Steps(rules[j]) && SlotsApart(rules[i], rules[j], d, existing, now)
  {
    RunConflictFree(ops);
    RivalSlotsApart(rules, i, j, d, existing, now);
  }

  lemma RivalSlotsApart(rules: Rules, i: RuleId, j: RuleId, d: SlotDate, existing: seq<Booked>, now: int)
    requires ConflictFree(rules) && i in rules && j in rules && i != j && Rivals(rules[i], rules[j])
    requires AppliesOn(rules[i], DayNumber(d)) && AppliesOn(rules[j], DayNumber(d))
    ensures Steps(rules[i]) && Steps(rules[j]) && SlotsApart(rules[i], rules[j], d, existing, now)
  {
    ValidRuleSteps(rules[i]);
    ValidRuleSteps(rules[j]);
    SlotsOfRivalsApart(rules[i], rules[j], d, existing, now);
  }

  /** Every rule in the book has a grid that moves forward, so the slot loop terminates on it. */
  lemma StoredRulesStep(ops: seq<Op>, id: RuleId)
    requires id in Run(ops)
    ensures Steps(Run(ops)[id])
  {
    RunConflictFree(ops);
    ValidRuleSteps(Run(ops)[id]);
  }

  lemma ValidRuleSteps(r: Rule)
    requires ValidRule(r)
    ensures Steps(r)
  {
  }

  // ---- the availability test of a reschedule -----------------------------------------------------------

  /** `toIstHHMM`. */
  function ToIstHHMM(instant: int): string {
    ToHHMM(IstMinute(instant))
  }

  lemma ToIstHHMMIsTime(instant: int)
    ensures IsTime(ToIstHHMM(instant)) && ToMinutes(ToIstHHMM(instant)) == IstMinute(instant)
  {
    ToMinutesToHHMM(IstMinute(instant));
  }

  /** Inside the window of the rule, and clear of its breaks. */
  predicate FitsRule(r: Rule, newStart: int, newEnd: int) {
    ToIstHHMMIsTime(newStart);
    ToIstHHMMIsTime(newEnd);
    var newStartMins, newEndMins := ToMinutes(ToIstHHMM(newStart)), ToMinutes(ToIstHHMM(newEnd));
    && newStartMins >= ToMinutes(r.startTime)
    && newEndMins <= ToMinutes(r.endTime)
    && !exists b | b in r.breakTimes :: newStartMins < ToMinutes(b.endTime) && newEndMins > ToMinutes(b.startTime)
  }

  /** `isWithinAvailability` of a reschedule. */
  predicate WithinAvailability(rules: Rules, mentor: MentorId, newStart: int, newEnd: int) {
    exists id | id in FindActive(rules, mentor, newStart) :: FitsRule(rules[id], newStart, newEnd)
  }

  /** Every slot a rule offers passes the window and break test against that rule. */
  lemma OfferedSlotFits(r: Rule, d: SlotDate, existing: seq<Booked>, now: int, s: Slot)
    requires Steps(r) && s in OfferedSlots(r, d, existing, now)
    ensures FitsRule(r, IstToUtc(d, s.start), IstToUtc(d, s.end))
  {
    OfferedInOrder(r, d, existing, now);
    OfferedExactly(r, d, existing, now, s);
    IstRoundTrip(d, s.start);
    IstRoundTrip(d, s.end);
    ToIstHHMMIsTime(IstToUtc(d, s.start));
    ToIstHHMMIsTime(IstToUtc(d, s.end));
  }

  /** The UTC day under which a reschedule to the slot looks rules up. */
  function LookupDay(d: SlotDate, s: Slot): int {
    if s.start >= IST_OFFSET_MINUTES then DayAsRead(d) else DayAsRead(d) - 1
  }

  lemma LookupDayExact(d: SlotDate, s: Slot)
    requires s.start < 1440
    ensures UtcDay(IstToUtc(d, s.start)) == LookupDay(d, s)
  {
  }

  /** The slot lies in the window of the rule and clear of its breaks, by the clock. */
  predicate Holds(r: Rule, s: Slot) {
    && ToMinutes(r.startTime) <= s.start && s.end <= ToMinutes(r.endTime)
    && !exists b | b in r.breakTimes :: s.start < ToMinutes(b.endTime) && s.end > ToMinutes(b.startTime)
  }

  lemma FitsExactly(r: Rule, d: SlotDate, s: Slot)
    requires s.start < 1440 && s.end < 1440
    ensures FitsRule(r, IstToUtc(d, s.start), IstToUtc(d, s.end)) <==> Holds(r, s)
  {
    IstRoundTrip(d, s.start);
    IstRoundTrip(d, s.end);
    ToIstHHMMIsTime(IstToUtc(d, s.start));
    ToIstHHMMIsTime(IstToUtc(d, s.end));
  }

  /**
    A reschedule to a slot is accepted by the availability test exactly when some active
    rule of the mentor that applies on the lookup day holds the slot.
   */
  lemma WithinAvailabilityExactly(rules: Rules, mentor: MentorId, d: SlotDate, s: Slot)
    requires s.start < 1440 && s.end < 1440
    ensures WithinAvailability(rules, mentor, IstToUtc(d, s.start), IstToUtc(d, s.end))
            <==> exists j | j in rules ::
                   && rules[j].mentorId == mentor && rules[j].status
                   && AppliesOn(rules[j], LookupDay(d, s)) && Holds(rules[j], s)
  {
    LookupDayExact(d, s);
    forall j | j in rules
      ensures FitsRule(rules[j], IstToUtc(d, s.start), IstToUtc(d, s.end)) <==> Holds(rules[j], s)
    {
      FitsExactly(rules[j], d, s);
    }
  }

  /**
    Slots belong to IST dates, but rules are looked up by the UTC date.  The rule that offers
    a slot is found exactly when it applies on the lookup day: from the year 100 on, when the
    slot starts at 05:30 or later, or the rule applies on the previous day as well.
   */
  lemma OfferedSlotFoundExactly(
    rules: Rules, id: RuleId, d: SlotDate, existing: seq<Booked>, now: int, s: Slot)
    requires id in rules && rules[id].status && AppliesOn(rules[id], DayNumber(d))
    requires Steps(rules[id]) && s in OfferedSlots(rules[id], d, existing, now)
    ensures id in FindActive(rules, rules[id].mentorId, IstToUtc(d, s.start))
            <==> AppliesOn(rules[id], LookupDay(d, s))
    ensures 100 <= d.year ==>
              (AppliesOn(rules[id], LookupDay(d, s))
               <==> s.start >= IST_OFFSET_MINUTES || AppliesOn(rules[id], DayNumber(d) - 1))
  {
    DayAsReadExactly(d);
    OfferedInOrder(rules[id], d, existing, now);
    LookupDayExact(d, s);
  }

  /** Another active rule of the mentor applies on the lookup day and holds the slot. */
  predicate HeldByAnother(rules: Rules, id: RuleId, d: SlotDate, s: Slot)
    requires id in rules
  {
    exists j | j in rules ::
      && j != id && rules[j].mentorId == rules[id].mentorId && rules[j].status
      && AppliesOn(rules[j], LookupDay(d, s)) && Holds(rules[j], s)
  }

  /**
    An offered slot passes the availability test of a reschedule exactly when its own rule
    is found, or another rule that applies on the lookup day holds it.
   */
  lemma OfferedSlotAcceptedExactly(
    rules: Rules, id: RuleId, d: SlotDate, existing: seq<Booked>, now: int, s: Slot)
    requires id in rules && rules[id].status
    requires Steps(rules[id]) && s in OfferedSlots(rules[id], d, existing, now)
    ensures WithinAvailability(rules, rules[id].mentorId, IstToUtc(d, s.start), IstToUtc(d, s.end))
            <==> AppliesOn(rules[id], LookupDay(d, s)) || HeldByAnother(rules, id, d, s)
  {
    OfferedInOrder(rules[id], d, existing, now);
    OfferedSlotFits(rules[id], d, existing, now, s);
    FitsExactly(rules[id], d, s);
    WithinAvailabilityExactly(rules, rules[id].mentorId, d, s);
  }
}
