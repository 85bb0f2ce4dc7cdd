/**
  The platform wallet against its obligations.  Its balance minus the money collected for
  paid, unsettled bookings is accounted for step by step; as long as no cancellation returns
  coins it never goes below zero and no step crashes.
 */
module Solvency {
  import opened Wrappers
  import opened Money
  import opened Bookings
  import opened Soundness
  import opened PlatformLedger
  import Availability

  /** The money collected for a paid booking that is not settled yet. */
  function Due(b: Booking): int {
    if b.paymentStatus == Paid && b.settledAt.None? then Calculate(b.paymentType, b.total).refundMinor else 0
  }

  ghost function Owed(bookings: map<Id, Booking>): int
    decreases bookings.Keys
  {
    if bookings == map[] then 0
    else
      var id :| id in bookings;
      Due(bookings[id]) + Owed(bookings - {id})
  }

  /** What the wallet holds beyond the money of unsettled sessions. */
  ghost function Slack(s: State): int {
    s.platform - Owed(s.bookings)
  }

  lemma {:induction false} OwedSplit(bookings: map<Id, Booking>, id: Id)
    requires id in bookings
    ensures Owed(bookings) == Due(bookings[id]) + Owed(bookings - {id})
    decreases bookings.Keys
  {
    var first :| first in bookings && Owed(bookings) == Due(bookings[first]) + Owed(bookings - {first});
    if first != id {
      OwedSplit(bookings - {first}, id);
      OwedSplit(bookings - {id}, first);
      assert bookings - {first} - {id} == bookings - {id} - {first};
    }
  }

  lemma OwedPut(bookings: map<Id, Booking>, id: Id, b: Booking)
    ensures Owed(bookings[id := b]) == Owed(bookings) + Due(b) - if id in bookings then Due(bookings[id]) else 0
  {
    OwedSplit(bookings[id := b], id);
    assert bookings[id := b] - {id} == bookings - {id};
    if id in bookings {
      OwedSplit(bookings, id);
    } else {
      assert bookings - {id} == bookings;
    }
  }

  /** The money of one unsettled booking is part of what is owed. */
  lemma {:induction false} OwedCovers(bookings: map<Id, Booking>)
    requires forall id :: id in bookings ==> bookings[id].total >= 0.0
    ensures Owed(bookings) >= 0
    ensures forall id :: id in bookings ==> Owed(bookings) >= Due(bookings[id])
    decreases bookings.Keys
  {
    if bookings != map[] {
      forall id | id in bookings
        ensures Owed(bookings) >= Due(bookings[id]) >= 0
      {
        OwedSplit(bookings, id);
        OwedCovers(bookings - {id});
        DueNotNegative(bookings[id]);
      }
      var id :| id in bookings;
      assert Owed(bookings) >= Due(bookings[id]) >= 0;
    }
  }

  lemma DueNotNegative(b: Booking)
    requires b.total >= 0.0
    ensures Due(b) >= 0
  {
    RoundMonotone(0.0, b.total / COIN_VALUE * 100.0);
    RoundMonotone(0.0, b.total * 100.0);
  }

  // ---- what a settlement takes from the wallet -------------------------------------------------

  function Withdrawal(s: State, b: Booking): int {
    var a := Calculate(b.paymentType, b.total);
    if b.mentorUserId.None? then 0
    else if MentorJoined(b) then (if a.mentorPayoutMinor > 0 then a.mentorPayoutMinor else 0)
    else if RecordNoShow(s, b.mentorUserId.value).1 >= 2 && a.refundCoins > 0 then a.refundMinor
    else 0
  }

  /** The money part of a settlement succeeds exactly when the wallet covers the withdrawal. */
  lemma PayOrRefundExactly(s: State, id: Id, b: Booking)
    requires b.paymentStatus == Paid && BookingSound(b, s.coins.Keys)
    ensures var a := PayOrRefund(s, id, b);
            && (a.ok <==> Withdrawal(s, b) == 0 || s.platform >= Withdrawal(s, b))
            && (a.ok ==> a.state.platform == s.platform - Withdrawal(s, b))
    ensures 0 <= Withdrawal(s, b) <= CollectedMinor(b.total)
  {
    SettlementWithinCollected(b.total);
    var a := Calculate(b.paymentType, b.total);
    if a.refundCoins > 0 {
      RefundMinorPositive(b.paymentType, b.total);
    }
  }

  /** How the slack changes: settling releases the rest of the collected money, cancelling costs the refund. */
  function StepGain(s: State, op: Op): int {
    match op
    case SettleOp(id, now) =>
      if NeedsSettlement(s, id) then
        Due(s.bookings[id]) - Withdrawal(s, s.bookings[id])
      else 0
    case CancelOp(id, user, byMentor, now) =>
      if Perform(s, op).1.Rejected? || RefundDue(s.bookings[id], byMentor, now) <= 0 then 0
      else -RefundToMinor(RefundDue(s.bookings[id], byMentor, now))
    case _ => 0
  }

  lemma SettleSlack(s: State, id: Id, now: int)
    requires Sound(s)
    requires !Settle(s, id, now).1.Crashed?
    ensures Slack(Settle(s, id, now).0) == Slack(s) + StepGain(s, SettleOp(id, now))
  {
    if id in s.bookings && s.bookings[id].settledAt.None? {
      var b := s.bookings[id];
      if b.paymentStatus != Paid {
        OwedPut(s.bookings, id, b.(settledAt := Some(now)));
      } else {
        var completed := if b.status == Started then Complete(s, id) else s;
        if b.status == Started {
          OwedPut(s.bookings, id, b.(status := Completed));
          CompleteSameWithdrawal(s, id);
        }
        PayOrRefundExactly(completed, id, b);
        OwedPut(completed.bookings, id, completed.bookings[id].(settledAt := Some(now)));
      }
    }
  }

  lemma CompleteSameWithdrawal(s: State, id: Id)
    requires id in s.bookings
    ensures Withdrawal(Complete(s, id), s.bookings[id]) == Withdrawal(s, s.bookings[id])
    ensures Complete(s, id).coins == s.coins && Complete(s, id).platform == s.platform
  {
  }

  lemma CreateSlack(s: State, id: Id, i: CreateInput, now: int)
    requires Sound(s) && id !in s.bookings
    requires !Create(s, id, i, now).1.Crashed?
    ensures Slack(Create(s, id, i, now).0) == Slack(s)
  {
    if Create(s, id, i, now).1.Done? {
      var b := NewBooking(s.mentors[i.mentorId], i);
      NewBookingSound(s, id, i, now);
      DueNotNegative(b);
      OwedPut(s.bookings, id, b);
    }
  }

  lemma CancelSlack(s: State, id: Id, user: Id, byMentor: bool, now: int)
    requires !Cancel(s, id, user, byMentor, now).1.Crashed?
    ensures Slack(Cancel(s, id, user, byMentor, now).0) == Slack(s) + StepGain(s, CancelOp(id, user, byMentor, now))
  {
    if Cancel(s, id, user, byMentor, now).1.Done? {
      var b := s.bookings[id];
      OwedPut(s.bookings, id, b.(status := if byMentor then CancelledByMentor else CancelledByMentee));
      RefundToMinorExact(RefundDue(b, byMentor, now));
    }
  }

  /** A step that rewrites one booking and moves no money, with the same amount due. */
  lemma RewriteSlack(s: State, s': State, id: Id)
    requires id in s.bookings && id in s'.bookings && s'.platform == s.platform
    requires s'.bookings == s.bookings[id := s'.bookings[id]] && Due(s'.bookings[id]) == Due(s.bookings[id])
    ensures Slack(s') == Slack(s)
  {
    OwedPut(s.bookings, id, s'.bookings[id]);
  }

  lemma RescheduleSlack(
    s: State, id: Id, user: Id, newStart: Option<int>, newEnd: Option<int>, now: int, rules: Availability.Rules)
    ensures Slack(Reschedule(s, id, user, newStart, newEnd, now, rules).0) == Slack(s)
  {
    if Reschedule(s, id, user, newStart, newEnd, now, rules).1.Done? {
      RewriteSlack(s, Reschedule(s, id, user, newStart, newEnd, now, rules).0, id);
    }
  }

  lemma JoinSlack(s: State, id: Id, user: Id, now: int)
    ensures Slack(Join(s, id, user, now).0) == Slack(s)
  {
    if Join(s, id, user, now).1.Done? {
      RewriteSlack(s, Join(s, id, user, now).0, id);
    }
  }

  lemma TerminateSlack(s: State, id: Id, user: Id, now: int)
    ensures Slack(Terminate(s, id, user, now).0) == Slack(s)
  {
    if Terminate(s, id, user, now).1.Done? {
      RewriteSlack(s, Terminate(s, id, user, now).0, id);
    }
  }

  lemma StepSlack(s: State, op: Op)
    requires Sound(s)
    requires !Perform(s, op).1.Crashed?
    ensures Slack(Step(s, op)) == Slack(s) + StepGain(s, op)
  {
    match op
    case TopUp(_, _) =>
    case CreateOp(id, i, now) =>
      if id !in s.bookings {
        CreateSlack(s, id, i, now);
      }
    case RescheduleOp(id, user, newStart, newEnd, now, rules) =>
      RescheduleSlack(s, id, user, newStart, newEnd, now, rules);
    case CancelOp(id, user, byMentor, now) => CancelSlack(s, id, user, byMentor, now);
    case JoinOp(id, user, now) => JoinSlack(s, id, user, now);
    case TerminateOp(id, user, now) => TerminateSlack(s, id, user, now);
    case SettleOp(id, now) => SettleSlack(s, id, now);
  }

  // ---- runs in which no cancellation returns coins ------------------------------------------------

  /** The operation is a cancellation that will be carried out and returns coins. */
  predicate ReturnsCoins(s: State, op: Op) {
    && op.CancelOp?
    && CancelError(s, op.id, op.user, op.byMentor).None?
    && RefundDue(s.bookings[op.id], op.byMentor, op.now) > 0
  }

  ghost predicate NoCoinsReturned(s: State, ops: seq<Op>) {
    ops == [] ||
    (NoCoinsReturned(s, ops[..|ops| - 1]) && !ReturnsCoins(Run(s, ops[..|ops| - 1]), ops[|ops| - 1]))
  }

  lemma GainNotNegative(s: State, op: Op)
    requires Sound(s) && !ReturnsCoins(s, op)
    ensures StepGain(s, op) >= 0
  {
    if op.SettleOp? && op.id in s.bookings && s.bookings[op.id].paymentStatus == Paid {
      PayOrRefundExactly(s, op.id, s.bookings[op.id]);
    }
  }

  /** A solvent wallet covers every step but a cancellation that returns coins. */
  lemma SolventStepDoesNotCrash(s: State, op: Op)
    requires Sound(s) && Slack(s) >= 0 && !ReturnsCoins(s, op)
    ensures !Perform(s, op).1.Crashed?
  {
    OwedCovers(s.bookings);
    match op
    case SettleOp(id, now) =>
      if NeedsSettlement(s, id) {
        var b := s.bookings[id];
        assert s.platform >= Due(b);
        CompleteSameWithdrawal(s, id);
        PayOrRefundExactly(if b.status == Started then Complete(s, id) else s, id, b);
      }
    case CreateOp(id, i, now) =>
    case CancelOp(_, _, _, _) =>
    case _ =>
  }

  /**
    As long as no cancellation returns coins no step ever crashes, and the platform always
    holds at least the money of all paid unsettled sessions.
   */
  lemma {:induction false} SolventWithoutRefunds(s: State, ops: seq<Op>)
    requires Initial(s) && NoCoinsReturned(s, ops)
    ensures CrashFree(s, ops)
    ensures Run(s, ops).platform >= Owed(Run(s, ops).bookings) >= 0
  {
    if ops == [] {
      assert Owed(s.bookings) == 0;
    } else {
      var prefix, op := ops[..|ops| - 1], ops[|ops| - 1];
      SolventWithoutRefunds(s, prefix);
      RunSound(s, prefix);
      SolventStepDoesNotCrash(Run(s, prefix), op);
      StepSlack(Run(s, prefix), op);
      GainNotNegative(Run(s, prefix), op);
    }
    RunSound(s, ops);
    OwedCovers(Run(s, ops).bookings);
  }
}
