/**
  The booking use cases and the services they call, over stored state that is updated in
  place.  Each method performs its checks and writes in the order given and is proved to
  make the step of the same name.
 */
module BookingService {
  import opened Wrappers
  import opened Money
  import opened Bookings
  import Availability
  import Slots

  class Platform {
    var bookings: map<Id, Booking>
    var mentors: map<Id, Mentor>
    const mentorOf: map<Id, Id>
    var coins: map<Id, real>
    var coinTxs: seq<CoinTx>
    var platform: int
    var rows: seq<Row>
    var blocked: set<Id>

    ghost function Now(): State
      reads this
    {
      State(bookings, mentors, mentorOf, coins, coinTxs, platform, rows, blocked)
    }

    constructor (s: State)
      ensures Now() == s
    {
      bookings, mentors, mentorOf, coins := s.bookings, s.mentors, s.mentorOf, s.coins;
      coinTxs, platform, rows, blocked := s.coinTxs, s.platform, s.rows, s.blocked;
    }

    // ---- wallet.service.ts ---------------------------------------------------------------

    method Credit(user: Id, amount: real, kind: CoinKind, booking: Option<Id>) returns (ok: bool)
      modifies `coins, `coinTxs
      ensures Attempt(Now(), ok) == Bookings.Credit(old(Now()), user, amount, kind, booking)
    {
      if user !in coins {
        return false;
      }
      ghost var before := coins;
      coins := coins[user := coins[user] + amount];
      if amount == 0.0 {
        // The balance has moved by zero; the transaction cannot be constructed.
        assert coins == before;
        return false;
      }
      coinTxs := coinTxs + [CoinTx(user, amount, kind, booking)];
      return true;
    }

    method Debit(user: Id, amount: real, kind: CoinKind, booking: Option<Id>) returns (error: Option<Error>)
      modifies `coins, `coinTxs
      ensures error == DebitError(old(Now()), user, amount)
      ensures error.Some? ==> Now() == old(Now())
      ensures error.None? ==> user in old(coins) && Now() == AddCoins(old(Now()), user, -amount, kind, booking)
    {
      if user !in coins {
        return Some(UserNotFound);
      }
      if coins[user] < amount {
        return Some(InsufficientBalance);
      }
      ghost var before := coins;
      coins := coins[user := coins[user] + -amount];
      if amount == 0.0 {
        assert coins == before;
        return Some(InvalidTransaction);
      }
      coinTxs := coinTxs + [CoinTx(user, -amount, kind, booking)];
      return None;
    }

    // ---- platform wallet and its ledger -----------------------------------------------------

    method IncrementPlatform(amount: int) returns (ok: bool)
      modifies `platform
      ensures Attempt(Now(), ok) == AddPlatform(old(Now()), amount)
    {
      platform := platform + amount;
      ok := platform >= 0;
    }

    // ---- mentor-session-payout.service.ts ------------------------------------------------------

    method CreditMentor(id: Id, user: Id, mentorCoins: int, payoutMinor: int) returns (ok: bool)
      modifies `coins, `coinTxs, `platform, `rows
      ensures Attempt(Now(), ok) == Bookings.CreditMentor(old(Now()), id, user, mentorCoins, payoutMinor)
    {
      ok := true;
      if mentorCoins > 0 {
        ok := Credit(user, mentorCoins as real, SessionEarning, Some(id));
      }
      if ok && payoutMinor > 0 {
        ok := IncrementPlatform(-payoutMinor);
        if ok {
          rows := rows + [Row(SessionPayout, id, -payoutMinor)];
        }
      }
    }

    // ---- session-refund.service.ts, refund.service.ts --------------------------------------------

    method RefundBookedUser(id: Id, user: Id, refundCoins: int, refundMinor: int) returns (ok: bool)
      modifies `coins, `coinTxs, `platform, `rows
      ensures Attempt(Now(), ok) ==
                if refundCoins <= 0 then Attempt(old(Now()), true)
                else IssueRefund(old(Now()), id, user, refundCoins, refundMinor)
    {
      if refundCoins <= 0 {
        return true;
      }
      ok := Credit(user, refundCoins as real, Refund, Some(id));
      if ok && refundMinor > 0 {
        var existing := exists r | r in rows :: r.kind == RefundRow && r.booking == id;
        if !existing {
          rows := rows + [Row(RefundRow, id, -refundMinor)];
        }
        ok := IncrementPlatform(-refundMinor);
      }
    }

    // ---- mentor-no-show.service.ts, mentor-write.repository.ts -------------------------------------

    method RecordNoShow(user: Id) returns (skipped: nat)
      modifies `mentors
      ensures (Now(), skipped) == Bookings.RecordNoShow(old(Now()), user)
    {
      if user !in mentorOf || mentorOf[user] !in mentors {
        return 0;
      }
      var m := mentorOf[user];
      skipped := mentors[m].skippedSessions + 1;
      mentors := mentors[m := mentors[m].(skippedSessions := skipped)];
    }

    method RecordCompletedSession(m: Id, endTime: int)
      modifies `mentors
      ensures Now() == RecordCompleted(old(Now()), m, endTime)
    {
      if m in mentors {
        mentors := mentors[m := mentors[m].(
          totalSessions := mentors[m].totalSessions + 1,
          lastSessionAt := Some(Later(mentors[m].lastSessionAt, endTime)))];
      }
    }

    // ---- the overlap queries of booking.repository.ts ------------------------------------------------

    method CheckBookingConflict(user: Id, start: int, end: int, exclude: Option<Id>) returns (conflict: bool)
      ensures conflict == HasBookingConflict(Now(), user, start, end, exclude)
    {
      var mentorId := if user in mentorOf then Some(mentorOf[user]) else None;
      var conflicts := FindOverlappingForUser(bookings, user, mentorId, start, end);
      conflict := exists id | id in conflicts ::
        && exclude != Some(id)
        && (bookings[id].paymentStatus == Paid || bookings[id].menteeId == user
            || (mentorId.Some? && bookings[id].mentorId == mentorId.value));
    }

    method CheckBlockingOverlap(mentor: Id, mentee: Id, start: int, end: int, exclude: Option<Id>)
      returns (blocking: bool)
      ensures blocking == HasBlockingOverlap(Now(), mentor, mentee, start, end, exclude)
    {
      var overlap := FindOverlapping(bookings, mentor, start, end);
      blocking := exists id | id in overlap ::
        exclude != Some(id) && (bookings[id].paymentStatus == Paid || bookings[id].menteeId == mentee);
    }

    // ---- create-booking.use-case.ts -------------------------------------------------------------------

    method CreateBooking(id: Id, i: CreateInput, now: int) returns (r: Result)
      requires id !in bookings
      modifies this
      ensures (Now(), r) == Create(old(Now()), id, i, now)
    {
      if i.menteeId == i.mentorId {
        return Rejected(OwnSession);
      }
      if i.mentorId !in mentors {
        return Rejected(MentorNotFound);
      }
      if i.start.None? || i.end.None? || i.start.value >= i.end.value {
        return Rejected(InvalidTimeRange);
      }
      if i.start.value <= now {
        return Rejected(InThePast);
      }
      var blockingOverlap := CheckBlockingOverlap(i.mentorId, i.menteeId, i.start.value, i.end.value, None);
      if blockingOverlap {
        return Rejected(SlotNotAvailable);
      }
      var hasMenteeConflict := CheckBookingConflict(i.menteeId, i.start.value, i.end.value, None);
      if hasMenteeConflict {
        return Rejected(MenteeBusy);
      }
      var b := NewBooking(mentors[i.mentorId], i);
      if i.paymentType == Coins {
        var error := Debit(i.menteeId, b.total, SessionSpend, Some(id));
        if error.Some? {
          return Rejected(error.value);
        }
        var platformAmountMinor := CollectedMinor(b.total);
        if platformAmountMinor > 0 {
          var ok := IncrementPlatform(platformAmountMinor);
          if !ok {
            return Crashed;
          }
          rows := rows + [Row(CoinBooking, id, platformAmountMinor)];
        }
      }
      bookings := bookings[id := b];
      return Done;
    }

    // ---- reschedule-booking.use-case.ts -----------------------------------------------------------------

    method RescheduleBooking(
      id: Id, user: Id, newStart: Option<int>, newEnd: Option<int>, now: int, rules: Availability.Rules)
      returns (r: Result)
      modifies `bookings
      ensures (Now(), r) == Reschedule(old(Now()), id, user, newStart, newEnd, now, rules)
    {
      if id !in bookings {
        return Rejected(BookingNotFound);
      }
      var b := bookings[id];
      if b.menteeId != user {
        return Rejected(Unauthorized);
      }
      if b.status != Confirmed {
        return Rejected(NotConfirmed);
      }
      if b.start - now < HOURS_24 {
        return Rejected(TooLateToReschedule);
      }
      if newStart.Some? && newStart.value <= now + HOURS_24 {
        return Rejected(NewStartTooSoon);
      }
      if newStart.None? || newEnd.None? {
        return Rejected(OutsideAvailability);
      }
      var isWithinAvailability := Slots.WithinAvailability(rules, b.mentorId, newStart.value, newEnd.value);
      if !isWithinAvailability {
        return Rejected(OutsideAvailability);
      }
      var blockingOverlap := CheckBlockingOverlap(b.mentorId, b.menteeId, newStart.value, newEnd.value, Some(id));
      if blockingOverlap {
        return Rejected(SlotNotAvailable);
      }
      var hasMenteeConflict := CheckBookingConflict(b.menteeId, newStart.value, newEnd.value, Some(id));
      if hasMenteeConflict {
        return Rejected(MenteeBusy);
      }
      bookings := bookings[id := b.(start := newStart.value, end := newEnd.value)];
      return Done;
    }

    // ---- cancel-booking.use-case.ts, cancel-booking-by-mentor.use-case.ts ----------------------------------

    method CancelByMentee(id: Id, user: Id, now: int) returns (r: Result)
      modifies this
      ensures (Now(), r) == Cancel(old(Now()), id, user, false, now)
    {
      if id !in bookings {
        return Rejected(BookingNotFound);
      }
      var b := bookings[id];
      if b.menteeId != user {
        return Rejected(Unauthorized);
      }
      if IsCancelled(b.status) {
        return Rejected(AlreadyCancelled);
      }
      if b.paymentStatus == PaymentPending {
        return Rejected(PaymentIsPending);
      }
      if b.status != Pending && b.status != Confirmed {
        return Rejected(NotCancellable);
      }
      bookings := bookings[id := b.(status := CancelledByMentee)];
      r := RefundSessionAmount(id, b, false, now);
    }

    method CancelByMentor(id: Id, user: Id, now: int) returns (r: Result)
      modifies this
      ensures (Now(), r) == Cancel(old(Now()), id, user, true, now)
    {
      if user !in mentorOf {
        return Rejected(MentorNotFound);
      }
      if id !in bookings {
        return Rejected(BookingNotFound);
      }
      var b := bookings[id];
      if b.mentorId != mentorOf[user] {
        return Rejected(Unauthorized);
      }
      if IsCancelled(b.status) {
        return Rejected(AlreadyCancelled);
      }
      if b.status != Pending && b.status != Confirmed {
        return Rejected(NotCancellable);
      }
      bookings := bookings[id := b.(status := CancelledByMentor)];
      r := RefundSessionAmount(id, b, true, now);
    }

    /** `RefundSessionAmountUseCase.execute` followed by `RefundService.processRefund`. */
    method RefundSessionAmount(id: Id, b: Booking, byMentor: bool, now: int) returns (r: Result)
      modifies `coins, `coinTxs, `platform, `rows
      ensures var due := RefundDue(b, byMentor, now);
              var minor := RefundToMinor(due);
              var coins' := if b.paymentType == Stripe then Round(minor as real / 100.0 * COIN_VALUE) else due;
              if due <= 0 then Now() == old(Now()) && r == Done
              else
                var a := IssueRefund(old(Now()), id, b.menteeId, coins', minor);
                Now() == a.state && r == if a.ok then Done else Crashed
    {
      var refundAmount := RefundDue(b, byMentor, now);
      if refundAmount <= 0 {
        return Done;
      }
      var refundAmountMinor := RefundToMinor(refundAmount);
      var refundCoins := refundAmount;
      if b.paymentType == Stripe {
        refundCoins := Round(refundAmountMinor as real / 100.0 * COIN_VALUE);
        StripeRefundCoins(refundAmount);
      }
      var ok := RefundBookedUser(id, b.menteeId, refundCoins, refundAmountMinor);
      r := if ok then Done else Crashed;
    }

    // ---- join-session.use-case.ts, terminate-session.use-case.ts ----------------------------------------------

    method JoinSession(id: Id, user: Id, now: int) returns (r: Result)
      modifies `bookings
      ensures (Now(), r) == Join(old(Now()), id, user, now)
    {
      if id !in bookings {
        return Rejected(BookingNotFound);
      }
      var b := bookings[id];
      if b.mentorUserId != Some(user) && b.menteeId != user {
        return Rejected(Unauthorized);
      }
      if b.status == Pending {
        return Rejected(PaymentIsPending);
      }
      if now < b.start - FIVE_MINUTES {
        return Rejected(TooEarly);
      }
      if b.mentorUserId == Some(user) {
        var update := b;
        if b.status == Confirmed {
          update := update.(status := Started);
        }
        if b.mentorJoinedAt.None? {
          update := update.(mentorJoinedAt := Some(now));
        }
        bookings := bookings[id := update];
      }
      return Done;
    }

    method TerminateSession(id: Id, user: Id, now: int) returns (r: Result)
      modifies `bookings, `mentors
      ensures (Now(), r) == Terminate(old(Now()), id, user, now)
    {
      if id !in bookings {
        return Rejected(BookingNotFound);
      }
      var b := bookings[id];
      if b.mentorUserId != Some(user) {
        return Rejected(Unauthorized);
      }
      if now < b.end - ONE_MINUTE {
        return Rejected(TooEarly);
      }
      if b.status != Completed {
        bookings := bookings[id := b.(status := Completed)];
        RecordCompletedSession(b.mentorId, b.end);
      }
      return Done;
    }

    // ---- settle-ended-session.use-case.ts ------------------------------------------------------------------------

    method SettleEndedSession(id: Id, now: int) returns (r: Result)
      modifies this
      ensures (Now(), r) == Settle(old(Now()), id, now)
    {
      if id !in bookings {
        return Done;
      }
      var booking := bookings[id];
      if booking.settledAt.Some? {
        return Done;
      }
      if booking.paymentStatus != Paid {
        bookings := bookings[id := booking.(settledAt := Some(now))];
        return Done;
      }
      if booking.status == Started {
        bookings := bookings[id := booking.(status := Completed)];
        RecordCompletedSession(booking.mentorId, booking.end);
      }
      var ok := PayMentorOrRefund(id, booking);
      if !ok {
        return Crashed;
      }
      bookings := bookings[id := bookings[id].(settledAt := Some(now))];
      return Done;
    }

    /** The middle of the settlement, with the booking as it was read at the start. */
    method PayMentorOrRefund(id: Id, booking: Booking) returns (ok: bool)
      modifies `mentors, `coins, `coinTxs, `platform, `rows, `blocked
      ensures Attempt(Now(), ok) == PayOrRefund(old(Now()), id, booking)
    {
      var amounts := Calculate(booking.paymentType, booking.total);
      ok := true;
      if MentorJoined(booking) {
        if booking.mentorUserId.Some? {
          ok := CreditMentor(id, booking.mentorUserId.value, amounts.mentorCoins, amounts.mentorPayoutMinor);
        }
      } else if booking.mentorUserId.Some? {
        var skippedSessions := RecordNoShow(booking.mentorUserId.value);
        if skippedSessions >= 2 {
          blocked := blocked + {booking.mentorUserId.value};
          ok := RefundBookedUser(id, booking.menteeId, amounts.refundCoins, amounts.refundMinor);
        }
      }
    }
  }
}
