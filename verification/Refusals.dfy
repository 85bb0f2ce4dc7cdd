/**
  What a request that is not accepted is told.  The checks of a use case are made in a fixed
  order, so each answer says which of them failed and that all earlier ones held.
 */
module Refusals {
  import opened Wrappers
  import opened Money
  import opened Bookings
  import opened Acceptance
  import Availability

  /** Another live session of the mentor, paid or of the same mentee, is in the way. */
  ghost predicate SlotTaken(s: State, id: Id, mentor: Id, mentee: Id, from: int, to: int) {
    exists j :: j in s.bookings && j != id && Concerns(s, s.bookings[j], mentor, mentee)
                && s.bookings[j].mentorId == mentor
                && (s.bookings[j].paymentStatus == Paid || s.bookings[j].menteeId == mentee)
                && InTheWay(s.bookings[j], from, to)
  }

  lemma SlotTakenExactly(s: State, id: Id, mentor: Id, mentee: Id, from: int, to: int)
    ensures HasBlockingOverlap(s, mentor, mentee, from, to, Some(id)) <==> SlotTaken(s, id, mentor, mentee, from, to)
  {
    forall j | j in s.bookings
      ensures Overlaps(s.bookings[j], from, to) <==> InTheWay(s.bookings[j], from, to)
    {
      OverlapsExactly(s.bookings[j], from, to);
    }
    if SlotTaken(s, id, mentor, mentee, from, to) {
      var j :| j in s.bookings && j != id && Concerns(s, s.bookings[j], mentor, mentee)
               && s.bookings[j].mentorId == mentor
               && (s.bookings[j].paymentStatus == Paid || s.bookings[j].menteeId == mentee)
               && InTheWay(s.bookings[j], from, to);
      assert j in FindOverlapping(s.bookings, mentor, from, to);
    }
  }

  lemma BusyExactly(s: State, id: Id, mentor: Id, mentee: Id, from: int, to: int)
    ensures HasBlockingOverlap(s, mentor, mentee, from, to, Some(id)) <==> SlotTaken(s, id, mentor, mentee, from, to)
    ensures !HasBlockingOverlap(s, mentor, mentee, from, to, Some(id)) ==>
              (HasBookingConflict(s, mentee, from, to, Some(id)) <==> !NobodyBusy(s, id, mentor, mentee, from, to))
    ensures SlotTaken(s, id, mentor, mentee, from, to) ==> !NobodyBusy(s, id, mentor, mentee, from, to)
  {
    SlotTakenExactly(s, id, mentor, mentee, from, to);
    ChecksExactly(s, id, mentor, mentee, from, to);
  }

  // ---- creating ------------------------------------------------------------------------------------

  predicate InOrder(i: CreateInput) {
    i.start.Some? && i.end.Some? && i.start.value < i.end.value
  }

  /** The request is proper and nobody is busy, so that only payment is left. */
  ghost predicate Bookable(s: State, id: Id, i: CreateInput, now: int) {
    ProperRequest(s, i, now) && NobodyBusy(s, id, i.mentorId, i.menteeId, i.start.value, i.end.value)
  }

  /** The answers to a creation under a fresh id. */
  lemma CreateAnswers(s: State, id: Id, i: CreateInput, now: int)
    requires id !in s.bookings
    ensures var r := Perform(s, CreateOp(id, i, now)).1;
            && (r == Rejected(OwnSession) <==> i.menteeId == i.mentorId)
            && (r == Rejected(MentorNotFound) <==> i.menteeId != i.mentorId && i.mentorId !in s.mentors)
            && (r == Rejected(InvalidTimeRange) <==>
                  i.menteeId != i.mentorId && i.mentorId in s.mentors && !InOrder(i))
            && (r == Rejected(InThePast) <==>
                  i.menteeId != i.mentorId && i.mentorId in s.mentors && InOrder(i) && i.start.value <= now)
            && (r == Rejected(SlotNotAvailable) <==>
                  ProperRequest(s, i, now) && SlotTaken(s, id, i.mentorId, i.menteeId, i.start.value, i.end.value))
            && (r == Rejected(MenteeBusy) <==>
                  && ProperRequest(s, i, now) && !Bookable(s, id, i, now)
                  && !SlotTaken(s, id, i.mentorId, i.menteeId, i.start.value, i.end.value))
  {
    CreateErrorExactly(s, id, i, now);
    if ProperRequest(s, i, now) {
      BusyExactly(s, id, i.mentorId, i.menteeId, i.start.value, i.end.value);
      ExcludingNobody(s, id, i.mentorId, i.menteeId, i.start.value, i.end.value);
    }
  }

  /** The answers to the payment of a creation with coins. */
  lemma PaymentAnswers(s: State, id: Id, i: CreateInput, now: int)
    requires id !in s.bookings && Bookable(s, id, i, now) && i.paymentType == Coins
    ensures var r := Perform(s, CreateOp(id, i, now)).1;
            var cost := Cost(s.mentors[i.mentorId], i.start.value, i.end.value);
            && (r == Rejected(UserNotFound) <==> i.menteeId !in s.coins)
            && (r == Rejected(InsufficientBalance) <==> i.menteeId in s.coins && s.coins[i.menteeId] < cost)
            && (r == Rejected(InvalidTransaction) <==>
                  i.menteeId in s.coins && s.coins[i.menteeId] >= cost && cost == 0.0)
            && (r == Crashed <==>
                  && i.menteeId in s.coins && s.coins[i.menteeId] >= cost && cost != 0.0
                  && Collected(cost) > 0 && s.platform + Collected(cost) < 0)
  {
    CreateErrorExactly(s, id, i, now);
    CostExact(s.mentors[i.mentorId], i.start.value, i.end.value);
    PayAnswers(s, id, NewBooking(s.mentors[i.mentorId], i));
  }

  lemma PayAnswers(s: State, id: Id, b: Booking)
    ensures var r := PayWithCoins(s, id, b).1;
            && (r == Rejected(UserNotFound) <==> b.menteeId !in s.coins)
            && (r == Rejected(InsufficientBalance) <==> b.menteeId in s.coins && s.coins[b.menteeId] < b.total)
            && (r == Rejected(InvalidTransaction) <==>
                  b.menteeId in s.coins && s.coins[b.menteeId] >= b.total && b.total == 0.0)
            && (r == Crashed <==>
                  && b.menteeId in s.coins && s.coins[b.menteeId] >= b.total && b.total != 0.0
                  && CollectedMinor(b.total) > 0 && s.platform + CollectedMinor(b.total) < 0)
  {
  }

  // ---- rescheduling ----------------------------------------------------------------------------------

  predicate IsTheirs(s: State, id: Id, user: Id) {
    id in s.bookings && s.bookings[id].menteeId == user
  }

  ghost predicate Admitted(rules: Availability.Rules, mentor: Id, from: int, to: int) {
    exists r | r in rules :: Admits(rules[r], mentor, from, to)
  }

  /** The answers to a rescheduling of a booking that is not there, not the caller's, or not confirmed. */
  lemma RescheduleAnswers(
    s: State, id: Id, user: Id, newStart: Option<int>, newEnd: Option<int>, now: int, rules: Availability.Rules)
    ensures var r := Perform(s, RescheduleOp(id, user, newStart, newEnd, now, rules)).1;
            && (r == Rejected(BookingNotFound) <==> id !in s.bookings)
            && (r == Rejected(Unauthorized) <==> id in s.bookings && s.bookings[id].menteeId != user)
            && (r == Rejected(NotConfirmed) <==> IsTheirs(s, id, user) && s.bookings[id].status != Confirmed)
  {
  }

  /** The answers to one that comes too late, or asks for a time too soon. */
  lemma NoticeAnswers(
    s: State, id: Id, user: Id, newStart: Option<int>, newEnd: Option<int>, now: int, rules: Availability.Rules)
    ensures var r := Perform(s, RescheduleOp(id, user, newStart, newEnd, now, rules)).1;
            && (r == Rejected(TooLateToReschedule) <==>
                  && IsTheirs(s, id, user) && s.bookings[id].status == Confirmed
                  && s.bookings[id].start - now < 86_400_000)
            && (r == Rejected(NewStartTooSoon) <==>
                  && IsTheirs(s, id, user) && s.bookings[id].status == Confirmed
                  && s.bookings[id].start - now >= 86_400_000
                  && newStart.Some? && newStart.value <= now + 86_400_000)
  {
  }

  /** Times that cannot be read lie in no rule. */
  lemma UnreadableTimes(
    s: State, id: Id, user: Id, newStart: Option<int>, newEnd: Option<int>, now: int, rules: Availability.Rules)
    requires IsTheirs(s, id, user) && s.bookings[id].status == Confirmed && s.bookings[id].start - now >= 86_400_000
    requires newStart.None? || (newStart.value > now + 86_400_000 && newEnd.None?)
    ensures Perform(s, RescheduleOp(id, user, newStart, newEnd, now, rules)).1 == Rejected(OutsideAvailability)
  {
  }

  /** The answers to a rescheduling in time. */
  lemma MoveAnswers(
    s: State, id: Id, user: Id, newStart: Option<int>, newEnd: Option<int>, now: int, rules: Availability.Rules)
    requires InTimeToMove(s, id, user, newStart, newEnd, now)
    ensures var r, mentor := Perform(s, RescheduleOp(id, user, newStart, newEnd, now, rules)).1, s.bookings[id].mentorId;
            && (r == Rejected(OutsideAvailability) <==> !Admitted(rules, mentor, newStart.value, newEnd.value))
            && (r == Rejected(SlotNotAvailable) <==>
                  && Admitted(rules, mentor, newStart.value, newEnd.value)
                  && SlotTaken(s, id, mentor, user, newStart.value, newEnd.value))
            && (r == Rejected(MenteeBusy) <==>
                  && Admitted(rules, mentor, newStart.value, newEnd.value)
                  && !SlotTaken(s, id, mentor, user, newStart.value, newEnd.value)
                  && !NobodyBusy(s, id, mentor, user, newStart.value, newEnd.value))
  {
    AdmittedExactly(rules, s.bookings[id].mentorId, newStart.value, newEnd.value);
    BusyExactly(s, id, s.bookings[id].mentorId, user, newStart.value, newEnd.value);
  }

  // ---- cancelling, joining and ending --------------------------------------------------------------------

  predicate CalledOff(status: Status) {
    status == CancelledByMentee || status == CancelledByMentor
  }

  /** The answers to a mentee who cancels. */
  lemma CancelByMenteeAnswers(s: State, id: Id, user: Id, now: int)
    ensures var r := Perform(s, CancelOp(id, user, false, now)).1;
            && (r == Rejected(BookingNotFound) <==> id !in s.bookings)
            && (r == Rejected(Unauthorized) <==> id in s.bookings && s.bookings[id].menteeId != user)
            && (r == Rejected(AlreadyCancelled) <==> IsTheirs(s, id, user) && CalledOff(s.bookings[id].status))
            && (r == Rejected(PaymentIsPending) <==>
                  && IsTheirs(s, id, user) && !CalledOff(s.bookings[id].status)
                  && s.bookings[id].paymentStatus == PaymentPending)
            && (r == Rejected(NotCancellable) <==>
                  && IsTheirs(s, id, user) && !CalledOff(s.bookings[id].status)
                  && s.bookings[id].paymentStatus != PaymentPending
                  && s.bookings[id].status != Pending && s.bookings[id].status != Confirmed)
  {
  }

  predicate Hosts(s: State, id: Id, user: Id) {
    user in s.mentorOf && id in s.bookings && s.bookings[id].mentorId == s.mentorOf[user]
  }

  /** The answers to a mentor who cancels. */
  lemma CancelByMentorAnswers(s: State, id: Id, user: Id, now: int)
    ensures var r := Perform(s, CancelOp(id, user, true, now)).1;
            && (r == Rejected(MentorNotFound) <==> user !in s.mentorOf)
            && (r == Rejected(BookingNotFound) <==> user in s.mentorOf && id !in s.bookings)
            && (r == Rejected(Unauthorized) <==> user in s.mentorOf && id in s.bookings && !Hosts(s, id, user))
            && (r == Rejected(AlreadyCancelled) <==> Hosts(s, id, user) && CalledOff(s.bookings[id].status))
            && (r == Rejected(NotCancellable) <==>
                  && Hosts(s, id, user) && !CalledOff(s.bookings[id].status)
                  && s.bookings[id].status != Pending && s.bookings[id].status != Confirmed)
  {
  }

  /** The answers to somebody who joins or ends a session. */
  lemma SessionAnswers(s: State, id: Id, user: Id, now: int)
    ensures var r := Perform(s, JoinOp(id, user, now)).1;
            && (r == Rejected(BookingNotFound) <==> id !in s.bookings)
            && (r == Rejected(Unauthorized) <==>
                  id in s.bookings && s.bookings[id].mentorUserId != Some(user) && s.bookings[id].menteeId != user)
            && (r == Rejected(PaymentIsPending) <==>
                  && id in s.bookings && (s.bookings[id].mentorUserId == Some(user) || s.bookings[id].menteeId == user)
                  && s.bookings[id].status == Pending)
            && (r == Rejected(TooEarly) <==>
                  && id in s.bookings && (s.bookings[id].mentorUserId == Some(user) || s.bookings[id].menteeId == user)
                  && s.bookings[id].status != Pending && now < s.bookings[id].start - 300_000)
    ensures var r := Perform(s, TerminateOp(id, user, now)).1;
            && (r == Rejected(BookingNotFound) <==> id !in s.bookings)
            && (r == Rejected(Unauthorized) <==> id in s.bookings && s.bookings[id].mentorUserId != Some(user))
            && (r == Rejected(TooEarly) <==>
                  && id in s.bookings && s.bookings[id].mentorUserId == Some(user)
                  && now < s.bookings[id].end - 60_000)
  {
  }
}
