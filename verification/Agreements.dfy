/**
  What a booking agrees on, and what becomes of it over every run: its interval, the amount
  it was booked for, and the two people it brings together.
 */
module Agreements {
  import opened Wrappers
  import opened Money
  import opened Bookings
  import opened Soundness
  import opened Attendance

  // ---- the interval ----------------------------------------------------------------------------

  predicate Proper(b: Booking) {
    b.start < b.end
  }

  /** The step is a rescheduling of the booking that is carried out. */
  predicate Moves(s: State, op: Op, id: Id) {
    op.RescheduleOp? && op.id == id && Perform(s, op).1.Done?
  }

  /** Only a rescheduling changes the times of a booking, and it makes them the requested ones. */
  lemma StepTimes(s: State, op: Op, id: Id)
    requires id in s.bookings
    ensures id in Step(s, op).bookings
    ensures var b, b' := s.bookings[id], Step(s, op).bookings[id];
            if Moves(s, op, id) then op.newStart == Some(b'.start) && op.newEnd == Some(b'.end)
            else b'.start == b.start && b'.end == b.end
  {
    match op
    case CreateOp(created, i, now) => CreateAddsOne(s, created, i, now);
    case CancelOp(cancelled, user, byMentor, now) => CancelTimes(s, cancelled, user, byMentor, now, id);
    case SettleOp(settled, now) => SettleTimes(s, settled, now, id);
    case _ =>
  }

  lemma CancelTimes(s: State, cancelled: Id, user: Id, byMentor: bool, now: int, id: Id)
    requires id in s.bookings
    ensures var bookings := Cancel(s, cancelled, user, byMentor, now).0.bookings;
            id in bookings && bookings[id].start == s.bookings[id].start && bookings[id].end == s.bookings[id].end
  {
  }

  lemma SettleTimes(s: State, settled: Id, now: int, id: Id)
    requires id in s.bookings
    ensures var bookings := Settle(s, settled, now).0.bookings;
            id in bookings && bookings[id].start == s.bookings[id].start && bookings[id].end == s.bookings[id].end
  {
    if NeedsSettlement(s, settled) {
      var b := s.bookings[settled];
      var completed := if b.status == Started then Complete(s, settled) else s;
      assert completed.bookings
          == if b.status == Started then s.bookings[settled := b.(status := Completed)] else s.bookings;
      assert PayOrRefund(completed, settled, b).state.bookings == completed.bookings;
    }
  }

  /** A rescheduling that is carried out although the new end is not after the new start. */
  predicate Inverts(s: State, op: Op, id: Id) {
    Moves(s, op, id) && op.newStart.Some? && op.newEnd.Some? && op.newStart.value >= op.newEnd.value
  }

  /** A creation compares the two times and a rescheduling does not. */
  lemma StepKeepsProperExactly(s: State, op: Op, id: Id)
    requires id in s.bookings ==> Proper(s.bookings[id])
    requires id in Step(s, op).bookings
    ensures Proper(Step(s, op).bookings[id]) <==> !Inverts(s, op, id)
  {
    if id in s.bookings {
      StepTimes(s, op, id);
    } else {
      StepNewBooking(s, op, id);
    }
  }

  ghost predicate NeverInverted(s: State, ops: seq<Op>, id: Id) {
    ops == [] ||
    (NeverInverted(s, ops[..|ops| - 1], id) && !Inverts(Run(s, ops[..|ops| - 1]), ops[|ops| - 1], id))
  }

  /** The booking ends after it starts, from its creation on and after every step. */
  ghost predicate AlwaysProper(s: State, ops: seq<Op>, id: Id) {
    && (id in Run(s, ops).bookings ==> Proper(Run(s, ops).bookings[id]))
    && (ops != [] ==> AlwaysProper(s, ops[..|ops| - 1], id))
  }

  /** Throughout a run a booking ends after it starts if and only if it is never rescheduled the wrong way round. */
  lemma {:induction false} RunProperExactly(s: State, ops: seq<Op>, id: Id)
    requires Initial(s)
    ensures AlwaysProper(s, ops, id) <==> NeverInverted(s, ops, id)
  {
    if ops != [] {
      var before, op := Run(s, ops[..|ops| - 1]), ops[|ops| - 1];
      RunProperExactly(s, ops[..|ops| - 1], id);
      if AlwaysProper(s, ops[..|ops| - 1], id) && id in Step(before, op).bookings {
        StepKeepsProperExactly(before, op, id);
      }
    }
  }

  /** The mentor joins or ends the session, and not earlier than five minutes before it starts. */
  predicate ComesInTime(op: Op, id: Id, b: Booking) {
    && (op.JoinOp? || op.TerminateOp?)
    && op.id == id && b.mentorUserId == Some(op.user) && op.now >= b.start - FIVE_MINUTES
  }

  /**
    Over any run, every earning from a session that was not rescheduled the wrong way round
    is one of a mentor who joined or ended it, five minutes before its start at the earliest.
   */
  lemma EarningsAreInTime(s: State, ops: seq<Op>, tx: CoinTx)
    requires Initial(s) && tx in Run(s, ops).coinTxs && tx.kind == SessionEarning
    requires tx.booking.Some? && NeverInverted(s, ops, tx.booking.value)
    ensures tx.booking.value in Run(s, ops).bookings
    ensures var b := Run(s, ops).bookings[tx.booking.value];
            b.mentorUserId == Some(tx.user) && exists k :: 0 <= k < |ops| && ComesInTime(ops[k], tx.booking.value, b)
  {
    EarningsAreAttended(s, ops, tx);
    RunProperExactly(s, ops, tx.booking.value);
    var b := Run(s, ops).bookings[tx.booking.value];
    var k :| 0 <= k < |ops| && Attends(ops[k], tx.booking.value, b);
    assert ComesInTime(ops[k], tx.booking.value, b);
  }

  // ---- the amount ------------------------------------------------------------------------------

  /** What a session of that length costs, in the unit of the payment type. */
  function PriceOfLength(paymentType: PaymentType, pricePer30Min: real, length: int): real {
    var amount := BookingAmount(pricePer30Min, 0, length);
    if paymentType == Coins then amount.coins else amount.currency
  }

  /** The amount of the booking is what that many milliseconds cost at the price of its mentor. */
  predicate PricedFor(s: State, b: Booking, length: int) {
    b.mentorId in s.mentors && b.total == PriceOfLength(b.paymentType, PriceOf(s.mentors[b.mentorId]), length)
  }

  lemma SamePriceExactly(paymentType: PaymentType, price: real, length: int, other: int)
    ensures PriceOfLength(paymentType, price, length) == PriceOfLength(paymentType, price, other)
            <==> length == other || price == 0.0
  {
    var a, b := length as real / 60_000.0 / 30.0, other as real / 60_000.0 / 30.0;
    assert a * price - b * price == (a - b) * price;
    if length != other && price != 0.0 {
      NonZeroProduct(a - b, price);
    }
  }

  predicate TakesNothing(s: State, mentor: Id) {
    mentor in s.mentors && PriceOf(s.mentors[mentor]) == 0.0
  }

  /** The amount is the price of the interval exactly when that is as long, or the mentor takes nothing. */
  predicate PricedIffAsLong(s: State, b: Booking, length: int) {
    PricedFor(s, b, b.end - b.start) <==> b.end - b.start == length || TakesNothing(s, b.mentorId)
  }

  lemma PricedForOtherExactly(s: State, b: Booking, length: int)
    requires PricedFor(s, b, length)
    ensures PricedIffAsLong(s, b, length)
  {
    SamePriceExactly(b.paymentType, PriceOf(s.mentors[b.mentorId]), length, b.end - b.start);
  }

  lemma NonZeroProduct(x: real, y: real)
    requires x != 0.0 && y != 0.0
    ensures x * y != 0.0
  {
    assert x == x * y / y;
  }

  /** The length a booking was created with. */
  ghost function BookedLength(s: State, ops: seq<Op>, id: Id): int {
    if ops == [] then 0
    else if id in Run(s, ops[..|ops| - 1]).bookings then BookedLength(s, ops[..|ops| - 1], id)
    else if id in Run(s, ops).bookings then Run(s, ops).bookings[id].end - Run(s, ops).bookings[id].start
    else 0
  }

  lemma NewBookingPriced(s: State, i: CreateInput)
    requires i.mentorId in s.mentors && i.start.Some? && i.end.Some?
    ensures PricedFor(s, NewBooking(s.mentors[i.mentorId], i), i.end.value - i.start.value)
  {
  }

  lemma SamePrices(s: State, s': State, b: Booking, b': Booking, length: int)
    requires PricedFor(s, b, length) && SamePeople(s, s') && SameContract(b, b')
    ensures PricedFor(s', b', length)
  {
  }

  /** Over any run the amount of a booking stays what was to be paid for the length it was booked with. */
  lemma {:induction false} RunBookedPrice(s: State, ops: seq<Op>, id: Id)
    requires Initial(s) && id in Run(s, ops).bookings
    ensures PricedFor(Run(s, ops), Run(s, ops).bookings[id], BookedLength(s, ops, id)) && BookedLength(s, ops, id) > 0
  {
    if ops != [] {
      var before, op := Run(s, ops[..|ops| - 1]), ops[|ops| - 1];
      StepSamePeople(before, op);
      var b := Run(s, ops).bookings[id];
      if id in before.bookings {
        RunBookedPrice(s, ops[..|ops| - 1], id);
        StepSameContracts(before, op, id);
        SamePrices(before, Run(s, ops), before.bookings[id], b, BookedLength(s, ops, id));
      } else {
        StepNewBooking(before, op, id);
        NewBookingPriced(before, op.input);
        SamePrices(before, Run(s, ops), b, b, BookedLength(s, ops, id));
      }
    }
  }

  /**
    Over any run the amount of a booking is the price of its interval if and only if the
    interval is as long as the one that was booked, or the mentor takes nothing: a
    rescheduling may change the length and never changes the amount.
   */
  lemma RunPricedExactly(s: State, ops: seq<Op>, id: Id)
    requires Initial(s) && id in Run(s, ops).bookings
    ensures PricedIffAsLong(Run(s, ops), Run(s, ops).bookings[id], BookedLength(s, ops, id))
  {
    RunBookedPrice(s, ops, id);
    PricedForOtherExactly(Run(s, ops), Run(s, ops).bookings[id], BookedLength(s, ops, id));
  }

  // ---- the people --------------------------------------------------------------------------------

  /** Mentee and mentor of the session are the same user. */
  predicate WithOneself(b: Booking) {
    b.mentorUserId == Some(b.menteeId)
  }

  ghost predicate NobodyWithOneself(bookings: map<Id, Booking>) {
    forall id :: id in bookings ==> !WithOneself(bookings[id])
  }

  /** A creation, carried out, whose mentee is the user behind the mentor. */
  predicate BooksOneself(s: State, op: Op) {
    && op.CreateOp? && Perform(s, op).1.Done?
    && op.input.mentorId in s.mentors && s.mentors[op.input.mentorId].userId == op.input.menteeId
  }

  /** The guard of a creation compares the mentee with the id of the mentor profile, and not with its user. */
  lemma StepKeepsOthersExactly(s: State, op: Op)
    requires NobodyWithOneself(s.bookings)
    ensures NobodyWithOneself(Step(s, op).bookings) <==> !BooksOneself(s, op)
  {
    var bookings := Step(s, op).bookings;
    if BooksOneself(s, op) {
      CreateAddsOne(s, op.id, op.input, op.now);
      assert WithOneself(bookings[op.id]);
    } else {
      forall id | id in bookings
        ensures !WithOneself(bookings[id])
      {
        if id in s.bookings {
          StepSameContracts(s, op, id);
        } else {
          StepNewBooking(s, op, id);
        }
      }
    }
  }

  ghost predicate NobodyBooksOneself(s: State, ops: seq<Op>) {
    ops == [] ||
    (NobodyBooksOneself(s, ops[..|ops| - 1]) && !BooksOneself(Run(s, ops[..|ops| - 1]), ops[|ops| - 1]))
  }

  /** Over any run nobody has a session with themselves if and only if no creation made one. */
  lemma {:induction false} RunNobodyWithOneselfExactly(s: State, ops: seq<Op>)
    requires Initial(s)
    ensures NobodyWithOneself(Run(s, ops).bookings) <==> NobodyBooksOneself(s, ops)
  {
    if ops != [] {
      var before, op := Run(s, ops[..|ops| - 1]), ops[|ops| - 1];
      RunNobodyWithOneselfExactly(s, ops[..|ops| - 1]);
      if NobodyWithOneself(before.bookings) {
        StepKeepsOthersExactly(before, op);
      } else {
        var id :| id in before.bookings && WithOneself(before.bookings[id]);
        StepSameContracts(before, op, id);
        assert WithOneself(Step(before, op).bookings[id]);
      }
    }
  }
}
