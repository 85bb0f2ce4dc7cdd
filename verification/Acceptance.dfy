/**
  Which requests are accepted.  Each use case is carried out if and only if what it promises
  to check holds, told by the stored fields, by milliseconds and by shared instants.
 */
module Acceptance {
  import opened Wrappers
  import opened Calendar
  import opened Money
  import opened Bookings
  import opened Soundness
  import opened Agreements
  import Availability
  import Slots

  // ---- sessions in the way ----------------------------------------------------------------------

  predicate Within(t: int, from: int, to: int) {
    from <= t < to
  }

  ghost predicate SharesInstant(b: Booking, from: int, to: int) {
    exists t: int :: Within(t, b.start, b.end) && Within(t, from, to)
  }

  /** They share an instant, or one of the two is the wrong way round and the other reaches over both its ends. */
  ghost predicate InTheWay(b: Booking, from: int, to: int) {
    || SharesInstant(b, from, to)
    || (b.end <= b.start && from < b.end && b.start < to)
    || (to <= from && b.start < to && from < b.end)
  }

  /** The overlap queries look for shared instants, so sessions may follow one another without a gap. */
  lemma OverlapsExactly(b: Booking, from: int, to: int)
    ensures b.start < b.end && from < to ==> (Overlaps(b, from, to) <==> SharesInstant(b, from, to))
    ensures Overlaps(b, from, to) <==> InTheWay(b, from, to)
  {
    if Overlaps(b, from, to) && b.start < b.end && from < to {
      var t := if b.start < from then from else b.start;
      assert Within(t, b.start, b.end) && Within(t, from, to);
    }
  }

  /** A live booking of the mentee, in either role, or a paid live one of the mentor. */
  predicate Concerns(s: State, b: Booking, mentor: Id, mentee: Id) {
    && (b.status == Pending || b.status == Confirmed || b.status == Started) && b.paymentStatus != PaymentFailed
    && (|| b.menteeId == mentee
        || (mentee in s.mentorOf && s.mentorOf[mentee] == b.mentorId)
        || (b.mentorId == mentor && b.paymentStatus == Paid))
  }

  /** No other booking that concerns them is in the way of the interval. */
  ghost predicate NobodyBusy(s: State, id: Id, mentor: Id, mentee: Id, from: int, to: int) {
    forall j :: j in s.bookings && j != id && Concerns(s, s.bookings[j], mentor, mentee) ==>
      !InTheWay(s.bookings[j], from, to)
  }

  lemma ChecksExactly(s: State, id: Id, mentor: Id, mentee: Id, from: int, to: int)
    ensures && !HasBlockingOverlap(s, mentor, mentee, from, to, Some(id))
            && !HasBookingConflict(s, mentee, from, to, Some(id))
            <==> NobodyBusy(s, id, mentor, mentee, from, to)
  {
    forall j | j in s.bookings
      ensures Overlaps(s.bookings[j], from, to) <==> InTheWay(s.bookings[j], from, to)
    {
      OverlapsExactly(s.bookings[j], from, to);
    }
    if NobodyBusy(s, id, mentor, mentee, from, to) {
      NobodyBusyPasses(s, id, mentor, mentee, from, to);
    } else {
      var j :| j in s.bookings && j != id && Concerns(s, s.bookings[j], mentor, mentee)
               && InTheWay(s.bookings[j], from, to);
      BusyIsFound(s, id, mentor, mentee, from, to, j);
    }
  }

  lemma NobodyBusyPasses(s: State, id: Id, mentor: Id, mentee: Id, from: int, to: int)
    requires NobodyBusy(s, id, mentor, mentee, from, to)
    ensures !HasBlockingOverlap(s, mentor, mentee, from, to, Some(id))
    ensures !HasBookingConflict(s, mentee, from, to, Some(id))
  {
    forall j | j in s.bookings && j != id && Concerns(s, s.bookings[j], mentor, mentee)
      ensures !Overlaps(s.bookings[j], from, to)
    {
      OverlapsExactly(s.bookings[j], from, to);
    }
  }

  lemma BusyIsFound(s: State, id: Id, mentor: Id, mentee: Id, from: int, to: int, j: Id)
    requires j in s.bookings && j != id && Concerns(s, s.bookings[j], mentor, mentee)
    requires InTheWay(s.bookings[j], from, to)
    ensures HasBlockingOverlap(s, mentor, mentee, from, to, Some(id)) || HasBookingConflict(s, mentee, from, to, Some(id))
  {
    OverlapsExactly(s.bookings[j], from, to);
    if s.bookings[j].menteeId == mentee || MentorOf(s, mentee) == Some(s.bookings[j].mentorId) {
      assert j in FindOverlappingForUser(s.bookings, mentee, MentorOf(s, mentee), from, to);
    } else {
      assert j in FindOverlapping(s.bookings, mentor, from, to);
    }
  }

  // ---- creating ------------------------------------------------------------------------------------

  /** What an interval costs, in coins. */
  function Cost(m: Mentor, from: int, to: int): real {
    (to - from) as real / 1_800_000.0 * if m.pricePer30Min.Some? then m.pricePer30Min.value else 0.0
  }

  /** The same in paise, rounded to the nearest. */
  function Collected(cost: real): int {
    (cost * 50.0 + 0.5).Floor
  }

  lemma CostExact(m: Mentor, from: int, to: int)
    ensures BookingAmount(PriceOf(m), from, to) == Price(Cost(m, from, to) / 2.0, Cost(m, from, to))
    ensures CollectedMinor(Cost(m, from, to)) == Collected(Cost(m, from, to))
  {
    assert (to - from) as real / 60_000.0 / 30.0 == (to - from) as real / 1_800_000.0;
  }

  /** The coins are there, they are some, and the platform wallet can take what is collected. */
  predicate CanPay(s: State, mentee: Id, cost: real) {
    && mentee in s.coins && s.coins[mentee] >= cost && cost != 0.0
    && (Collected(cost) > 0 ==> s.platform + Collected(cost) >= 0)
  }

  /** The mentor exists and is not the mentee, and the session is to come and ends after it starts. */
  predicate ProperRequest(s: State, i: CreateInput, now: int) {
    && i.mentorId in s.mentors && i.menteeId != i.mentorId
    && i.start.Some? && i.end.Some? && now < i.start.value < i.end.value
  }

  lemma CreateErrorExactly(s: State, id: Id, i: CreateInput, now: int)
    requires id !in s.bookings
    ensures CreateError(s, i, now).None? <==>
              && ProperRequest(s, i, now)
              && NobodyBusy(s, id, i.mentorId, i.menteeId, i.start.value, i.end.value)
  {
    if ProperRequest(s, i, now) {
      ChecksExactly(s, id, i.mentorId, i.menteeId, i.start.value, i.end.value);
      ExcludingNobody(s, id, i.mentorId, i.menteeId, i.start.value, i.end.value);
    }
  }

  lemma ExcludingNobody(s: State, id: Id, mentor: Id, mentee: Id, from: int, to: int)
    requires id !in s.bookings
    ensures HasBlockingOverlap(s, mentor, mentee, from, to, Some(id)) <==>
              HasBlockingOverlap(s, mentor, mentee, from, to, None)
    ensures HasBookingConflict(s, mentee, from, to, Some(id)) <==> HasBookingConflict(s, mentee, from, to, None)
  {
  }

  lemma PayExactly(s: State, id: Id, b: Booking)
    ensures PayWithCoins(s, id, b).1.Done? <==>
              && b.menteeId in s.coins && s.coins[b.menteeId] >= b.total && b.total != 0.0
              && (CollectedMinor(b.total) > 0 ==> s.platform + CollectedMinor(b.total) >= 0)
  {
  }

  /** A creation is accepted if and only if it is proper, can be paid, and nobody concerned is busy then. */
  lemma CreateAcceptedExactly(s: State, id: Id, i: CreateInput, now: int)
    ensures Perform(s, CreateOp(id, i, now)).1.Done? <==>
              && id !in s.bookings && ProperRequest(s, i, now)
              && NobodyBusy(s, id, i.mentorId, i.menteeId, i.start.value, i.end.value)
              && (i.paymentType == Coins ==>
                    CanPay(s, i.menteeId, Cost(s.mentors[i.mentorId], i.start.value, i.end.value)))
  {
    if id !in s.bookings {
      CreateErrorExactly(s, id, i, now);
      if CreateError(s, i, now).None? {
        CostExact(s.mentors[i.mentorId], i.start.value, i.end.value);
        PayExactly(s, id, NewBooking(s.mentors[i.mentorId], i));
      }
    }
  }

  /** The booking of an accepted creation, and what is paid for it. */
  lemma CreateWrites(s: State, id: Id, i: CreateInput, now: int)
    requires Perform(s, CreateOp(id, i, now)).1.Done?
    ensures var s' := Step(s, CreateOp(id, i, now));
            && i.mentorId in s.mentors && i.start.Some? && i.end.Some?
            && var m := s.mentors[i.mentorId];
            var cost := Cost(m, i.start.value, i.end.value);
            && s'.bookings == s.bookings[id :=
                 if i.paymentType == Coins then
                   Booking(i.mentorId, Some(m.userId), i.menteeId, i.start.value, i.end.value,
                           Confirmed, Coins, Paid, cost, None, None)
                 else
                   Booking(i.mentorId, Some(m.userId), i.menteeId, i.start.value, i.end.value,
                           Pending, Stripe, PaymentPending, cost / 2.0, None, None)]
            && (if i.paymentType == Coins then
                  && i.menteeId in s.coins && s'.coins == s.coins[i.menteeId := s.coins[i.menteeId] - cost]
                  && s'.coinTxs == s.coinTxs + [CoinTx(i.menteeId, -cost, SessionSpend, Some(id))]
                  && s'.platform == s.platform + (if Collected(cost) > 0 then Collected(cost) else 0)
                  && s'.rows == s.rows + if Collected(cost) > 0 then [Row(CoinBooking, id, Collected(cost))] else []
                else s'.coins == s.coins && s'.coinTxs == s.coinTxs && s'.platform == s.platform && s'.rows == s.rows)
  {
    CreateAddsOne(s, id, i, now);
    CostExact(s.mentors[i.mentorId], i.start.value, i.end.value);
  }

  // ---- rescheduling --------------------------------------------------------------------------------

  /** The minute of the day in India, 330 minutes ahead of UTC. */
  function MinuteInIndia(t: int): int {
    (t / 60_000 + 330) % 1440
  }

  lemma MinuteExact(t: int)
    ensures MinuteInIndia(t) == IstMinute(t)
  {
    var minutes := t / 60_000;
    var day, minute := (minutes + 330) / 1440, (minutes + 330) % 1440;
    var inDay := minute * 60_000 + t % 60_000;
    assert t + 19_800_000 == day * 86_400_000 + inDay;
    RestOfDay(t + 19_800_000, day, inDay);
    MinuteOf(inDay, minute, t % 60_000);
  }

  lemma RestOfDay(t: int, day: int, inDay: int)
    requires t == day * 86_400_000 + inDay && 0 <= inDay < 86_400_000
    ensures t % 86_400_000 == inDay
  {
  }

  lemma MinuteOf(inDay: int, minute: int, rest: int)
    requires inDay == minute * 60_000 + rest && 0 <= rest < 60_000
    ensures inDay / 60_000 == minute
  {
  }

  /** The clock times lie in the window of the rule and clear of its breaks. */
  predicate HoldsClock(r: Availability.Rule, from: int, to: int) {
    && ToMinutes(r.startTime) <= from && to <= ToMinutes(r.endTime)
    && forall b :: b in r.breakTimes ==> to <= ToMinutes(b.startTime) || ToMinutes(b.endTime) <= from
  }

  /** A rule of the mentor that is switched on, applies on the UTC date, and holds the clock times. */
  predicate Admits(r: Availability.Rule, mentor: Id, from: int, to: int) {
    && r.mentorId == mentor && r.status
    && DayNumber(r.startDate) <= from / 86_400_000 <= DayNumber(r.endDate)
    && Availability.Weekday(from / 86_400_000) in r.days
    && HoldsClock(r, MinuteInIndia(from), MinuteInIndia(to))
  }

  lemma FitsByTheClock(r: Availability.Rule, from: int, to: int)
    ensures Slots.FitsRule(r, from, to) <==> HoldsClock(r, IstMinute(from), IstMinute(to))
  {
    Slots.ToIstHHMMIsTime(from);
    Slots.ToIstHHMMIsTime(to);
  }

  lemma AdmittedExactly(rules: Availability.Rules, mentor: Id, from: int, to: int)
    ensures Slots.WithinAvailability(rules, mentor, from, to) <==>
              exists r | r in rules :: Admits(rules[r], mentor, from, to)
  {
    MinuteExact(from);
    MinuteExact(to);
    forall r | r in rules
      ensures Admits(rules[r], mentor, from, to) <==>
                r in Slots.FindActive(rules, mentor, from) && Slots.FitsRule(rules[r], from, to)
    {
      FitsByTheClock(rules[r], from, to);
    }
  }

  /** The mentee of a confirmed booking gives a day of notice, for the old start and for the new one. */
  predicate InTimeToMove(s: State, id: Id, user: Id, newStart: Option<int>, newEnd: Option<int>, now: int) {
    && id in s.bookings && s.bookings[id].menteeId == user && s.bookings[id].status == Confirmed
    && s.bookings[id].start - now >= 86_400_000
    && newStart.Some? && newEnd.Some? && newStart.value > now + 86_400_000
  }

  /**
    A rescheduling is accepted if and only if it is in time, a rule of the mentor admits the
    new times, and nobody concerned is busy then.
   */
  lemma RescheduleAcceptedExactly(
    s: State, id: Id, user: Id, newStart: Option<int>, newEnd: Option<int>, now: int, rules: Availability.Rules)
    ensures Perform(s, RescheduleOp(id, user, newStart, newEnd, now, rules)).1.Done? <==>
              && InTimeToMove(s, id, user, newStart, newEnd, now)
              && (exists r | r in rules :: Admits(rules[r], s.bookings[id].mentorId, newStart.value, newEnd.value))
              && NobodyBusy(s, id, s.bookings[id].mentorId, user, newStart.value, newEnd.value)
  {
    if InTimeToMove(s, id, user, newStart, newEnd, now) {
      AdmittedExactly(rules, s.bookings[id].mentorId, newStart.value, newEnd.value);
      ChecksExactly(s, id, s.bookings[id].mentorId, user, newStart.value, newEnd.value);
    }
  }

  /**
    Over any run, whenever the times of a booking change its mentee has asked for it while it
    was confirmed, a day before the old start and more than a day before the new one.
   */
  lemma RunMovesInTime(s: State, ops: seq<Op>, k: nat, id: Id)
    requires k < |ops| && id in Run(s, ops[..k]).bookings
    requires var b, b' := Run(s, ops[..k]).bookings[id], Step(Run(s, ops[..k]), ops[k]).bookings;
             id in b' && (b'[id].start != b.start || b'[id].end != b.end)
    ensures var b, b' := Run(s, ops[..k]).bookings[id], Step(Run(s, ops[..k]), ops[k]).bookings[id];
            && ops[k].RescheduleOp? && ops[k].id == id && ops[k].user == b.menteeId && b.status == Confirmed
            && b.start - ops[k].now >= 86_400_000 && b'.start > ops[k].now + 86_400_000
            && ops[k].newStart == Some(b'.start) && ops[k].newEnd == Some(b'.end)
  {
    var before, op := Run(s, ops[..k]), ops[k];
    StepTimes(before, op, id);
    RescheduleAcceptedExactly(before, op.id, op.user, op.newStart, op.newEnd, op.now, op.rules);
  }

  // ---- cancelling, joining and ending ------------------------------------------------------------------

  /**
    A cancellation is carried out if and only if the caller is the booking's mentee, and the
    payment is not pending, or the user behind its mentor, and the booking is PENDING or CONFIRMED.
   */
  lemma CancelAcceptedExactly(s: State, id: Id, user: Id, byMentor: bool, now: int)
    ensures !Perform(s, CancelOp(id, user, byMentor, now)).1.Rejected? <==>
              && id in s.bookings && (s.bookings[id].status == Pending || s.bookings[id].status == Confirmed)
              && if byMentor then user in s.mentorOf && s.mentorOf[user] == s.bookings[id].mentorId
                 else s.bookings[id].menteeId == user && s.bookings[id].paymentStatus != PaymentPending
  {
  }

  /** Joining needs a part in a session that is not pending, from five minutes before its start on. */
  lemma JoinAcceptedExactly(s: State, id: Id, user: Id, now: int)
    ensures Perform(s, JoinOp(id, user, now)).1.Done? <==>
              && id in s.bookings && (s.bookings[id].menteeId == user || s.bookings[id].mentorUserId == Some(user))
              && s.bookings[id].status != Pending && now >= s.bookings[id].start - 300_000
  {
  }

  /** Ending a session is up to its mentor, from a minute before its end on. */
  lemma TerminateAcceptedExactly(s: State, id: Id, user: Id, now: int)
    ensures Perform(s, TerminateOp(id, user, now)).1.Done? <==>
              id in s.bookings && s.bookings[id].mentorUserId == Some(user) && now >= s.bookings[id].end - 60_000
  {
  }
}
