/**
  Nobody earns from a session they did not attend: over every run an earning belongs to
  the mentor of its booking, and that mentor has joined the session no earlier than five
  minutes before its start, or has ended it in its last minute or later.  The last minute
  comes after the start unless the session was rescheduled to end before it (`Agreements`).
 */
module Attendance {
  import opened Wrappers
  import opened Bookings
  import opened Soundness

  /** The operation is the mentor's arrival at the session, or the mentor ending it. */
  predicate Attends(op: Op, id: Id, b: Booking) {
    match op
    case JoinOp(joined, user, now) => joined == id && b.mentorUserId == Some(user) && now >= b.start - FIVE_MINUTES
    case TerminateOp(ended, user, now) => ended == id && b.mentorUserId == Some(user) && now >= b.end - ONE_MINUTE
    case _ => false
  }

  /** A session whose mentor came is past the states that can be cancelled or rescheduled. */
  predicate UnderWay(b: Booking) {
    MentorJoined(b) ==> b.status != Pending && b.status != Confirmed
  }

  /** The mentor's attendance and what it is measured by stay. */
  predicate AttendanceStays(b: Booking, b': Booking) {
    && UnderWay(b')
    && b'.mentorUserId == b.mentorUserId
    && (MentorJoined(b) ==> MentorJoined(b') && b'.start == b.start && b'.end == b.end)
  }

  /** What a step does to the attendance of a booking: it stays, or the operation is what makes it. */
  lemma StepAttendance(s: State, op: Op, id: Id)
    requires id in s.bookings && UnderWay(s.bookings[id])
    ensures id in Step(s, op).bookings && AttendanceStays(s.bookings[id], Step(s, op).bookings[id])
    ensures MentorJoined(Step(s, op).bookings[id]) && !MentorJoined(s.bookings[id]) ==>
              Attends(op, id, Step(s, op).bookings[id])
  {
    match op
    case CreateOp(created, i, now) => CreateAddsOne(s, created, i, now);
    case CancelOp(cancelled, user, byMentor, now) => CancelAttendance(s, cancelled, user, byMentor, now, id);
    case SettleOp(settled, now) => SettleAttendance(s, settled, now, id);
    case JoinOp(joined, user, now) => JoinAttendance(s, joined, user, now, id);
    case TerminateOp(ended, user, now) => TerminateAttendance(s, ended, user, now, id);
    case _ =>
  }

  lemma JoinAttendance(s: State, joined: Id, user: Id, now: int, id: Id)
    requires id in s.bookings && UnderWay(s.bookings[id])
    ensures var bookings := Join(s, joined, user, now).0.bookings;
            && id in bookings && AttendanceStays(s.bookings[id], bookings[id])
            && (MentorJoined(bookings[id]) && !MentorJoined(s.bookings[id]) ==>
                  Attends(JoinOp(joined, user, now), id, bookings[id]))
  {
  }

  lemma TerminateAttendance(s: State, ended: Id, user: Id, now: int, id: Id)
    requires id in s.bookings && UnderWay(s.bookings[id])
    ensures var bookings := Terminate(s, ended, user, now).0.bookings;
            && id in bookings && AttendanceStays(s.bookings[id], bookings[id])
            && (MentorJoined(bookings[id]) && !MentorJoined(s.bookings[id]) ==>
                  Attends(TerminateOp(ended, user, now), id, bookings[id]))
  {
  }

  lemma CancelAttendance(s: State, cancelled: Id, user: Id, byMentor: bool, now: int, id: Id)
    requires id in s.bookings && UnderWay(s.bookings[id])
    ensures var bookings := Cancel(s, cancelled, user, byMentor, now).0.bookings;
            && id in bookings && AttendanceStays(s.bookings[id], bookings[id])
            && (MentorJoined(bookings[id]) ==> MentorJoined(s.bookings[id]))
  {
  }

  lemma SettleAttendance(s: State, settled: Id, now: int, id: Id)
    requires id in s.bookings && UnderWay(s.bookings[id])
    ensures var bookings := Settle(s, settled, now).0.bookings;
            && id in bookings && AttendanceStays(s.bookings[id], bookings[id])
            && (MentorJoined(bookings[id]) ==> MentorJoined(s.bookings[id]))
  {
    if NeedsSettlement(s, settled) {
      var b := s.bookings[settled];
      var completed := if b.status == Started then Complete(s, settled) else s;
      assert completed.bookings
          == if b.status == Started then s.bookings[settled := b.(status := Completed)] else s.bookings;
      assert PayOrRefund(completed, settled, b).state.bookings == completed.bookings;
    }
  }

  lemma {:induction false} RunUnderWay(s: State, ops: seq<Op>, id: Id)
    requires Initial(s) && id in Run(s, ops).bookings
    ensures UnderWay(Run(s, ops).bookings[id])
  {
    if ops != [] {
      var before, op := Run(s, ops[..|ops| - 1]), ops[|ops| - 1];
      if id in before.bookings {
        RunUnderWay(s, ops[..|ops| - 1], id);
        StepAttendance(before, op, id);
      } else {
        StepNewBooking(before, op, id);
      }
    }
  }

  /** Over any run, a session whose mentor counts as present was attended by that mentor. */
  lemma {:induction false} RunAttended(s: State, ops: seq<Op>, id: Id)
    requires Initial(s) && id in Run(s, ops).bookings && MentorJoined(Run(s, ops).bookings[id])
    ensures exists k :: 0 <= k < |ops| && Attends(ops[k], id, Run(s, ops).bookings[id])
  {
    var before, op := Run(s, ops[..|ops| - 1]), ops[|ops| - 1];
    if id in before.bookings {
      RunUnderWay(s, ops[..|ops| - 1], id);
      StepAttendance(before, op, id);
      if MentorJoined(before.bookings[id]) {
        RunAttended(s, ops[..|ops| - 1], id);
        var k :| 0 <= k < |ops| - 1 && Attends(ops[..|ops| - 1][k], id, before.bookings[id]);
        assert Attends(ops[k], id, Run(s, ops).bookings[id]);
      } else {
        assert Attends(ops[|ops| - 1], id, Run(s, ops).bookings[id]);
      }
    } else {
      StepNewBooking(before, op, id);
    }
  }

  // ---- earnings -----------------------------------------------------------------------------

  /** The earning goes to the mentor of a booking whose mentor came. */
  predicate Earned(tx: CoinTx, bookings: map<Id, Booking>) {
    tx.kind == SessionEarning ==>
      && tx.booking.Some? && tx.booking.value in bookings
      && bookings[tx.booking.value].mentorUserId == Some(tx.user) && MentorJoined(bookings[tx.booking.value])
  }

  ghost predicate AllEarned(txs: seq<CoinTx>, bookings: map<Id, Booking>) {
    forall tx :: tx in txs ==> Earned(tx, bookings)
  }

  ghost predicate AllUnderWay(bookings: map<Id, Booking>) {
    forall id :: id in bookings ==> UnderWay(bookings[id])
  }

  /** The transactions a step adds: at most one, and an earning only for a mentor who came. */
  lemma StepAddsEarned(s: State, op: Op)
    requires AllUnderWay(s.bookings)
    ensures forall tx :: tx in Step(s, op).coinTxs && tx !in s.coinTxs ==> Earned(tx, Step(s, op).bookings)
  {
    match op
    case CreateOp(id, i, now) => CreateAddsNoEarning(s, id, i, now);
    case CancelOp(id, user, byMentor, now) => CancelAddsNoEarning(s, id, user, byMentor, now);
    case SettleOp(id, now) => SettleAddsEarned(s, id, now);
    case _ =>
  }

  lemma CreateAddsNoEarning(s: State, id: Id, i: CreateInput, now: int)
    ensures forall tx :: tx in Create(s, id, i, now).0.coinTxs ==> tx in s.coinTxs || tx.kind != SessionEarning
  {
  }

  lemma CancelAddsNoEarning(s: State, id: Id, user: Id, byMentor: bool, now: int)
    ensures forall tx :: tx in Cancel(s, id, user, byMentor, now).0.coinTxs ==>
              tx in s.coinTxs || tx.kind != SessionEarning
  {
  }

  lemma PayOrRefundAddsEarned(s: State, id: Id, b: Booking)
    ensures forall tx :: tx in PayOrRefund(s, id, b).state.coinTxs && tx !in s.coinTxs && tx.kind == SessionEarning ==>
              MentorJoined(b) && b.mentorUserId == Some(tx.user) && tx.booking == Some(id)
  {
  }

  lemma SettleAddsEarned(s: State, id: Id, now: int)
    requires AllUnderWay(s.bookings)
    ensures forall tx :: tx in Settle(s, id, now).0.coinTxs && tx !in s.coinTxs ==>
              Earned(tx, Settle(s, id, now).0.bookings)
  {
    if NeedsSettlement(s, id) {
      var b := s.bookings[id];
      PayOrRefundAddsEarned(if b.status == Started then Complete(s, id) else s, id, b);
      SettleAttendance(s, id, now, id);
    }
  }

  lemma {:induction false} RunAllEarned(s: State, ops: seq<Op>)
    requires Initial(s)
    ensures AllUnderWay(Run(s, ops).bookings) && AllEarned(Run(s, ops).coinTxs, Run(s, ops).bookings)
  {
    if ops != [] {
      var before, op := Run(s, ops[..|ops| - 1]), ops[|ops| - 1];
      RunAllEarned(s, ops[..|ops| - 1]);
      StepAddsEarned(before, op);
      forall tx | tx in before.coinTxs
        ensures Earned(tx, Run(s, ops).bookings)
      {
        if tx.kind == SessionEarning {
          StepAttendance(before, op, tx.booking.value);
        }
      }
      forall id | id in Run(s, ops).bookings
        ensures UnderWay(Run(s, ops).bookings[id])
      {
        RunUnderWay(s, ops, id);
      }
    }
  }

  /** Over any run, every earning is one of a mentor who joined or ended that very session in time. */
  lemma EarningsAreAttended(s: State, ops: seq<Op>, tx: CoinTx)
    requires Initial(s) && tx in Run(s, ops).coinTxs && tx.kind == SessionEarning
    ensures tx.booking.Some? && tx.booking.value in Run(s, ops).bookings
    ensures var b := Run(s, ops).bookings[tx.booking.value];
            b.mentorUserId == Some(tx.user) && exists k :: 0 <= k < |ops| && Attends(ops[k], tx.booking.value, b)
  {
    RunAllEarned(s, ops);
    RunAttended(s, ops, tx.booking.value);
  }
}
