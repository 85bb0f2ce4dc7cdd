/**
  Nobody is booked twice in one role: over every run of booking steps the live paid
  bookings of a mentor, and the live bookings of a mentee, never overlap.
 */
module Exclusivity {
  import opened Wrappers
  import opened Money
  import opened Bookings
  import Availability

  /** Not both at the same time. */
  predicate Apart(a: Booking, b: Booking) {
    a.end <= b.start || b.end <= a.start
  }

  /** Two live bookings that must not overlap: both paid with one mentor, or both of one mentee. */
  predicate Compete(a: Booking, b: Booking) {
    && Live(a) && Live(b)
    && ((a.mentorId == b.mentorId && a.paymentStatus == Paid && b.paymentStatus == Paid) || a.menteeId == b.menteeId)
  }

  ghost predicate Exclusive(bookings: map<Id, Booking>) {
    forall i, j :: i in bookings && j in bookings && i != j && Compete(bookings[i], bookings[j]) ==>
      Apart(bookings[i], bookings[j])
  }

  /** `b'` occupies no more than `b` does. */
  predicate Shrinks(b: Booking, b': Booking) {
    && b'.mentorId == b.mentorId && b'.menteeId == b.menteeId && b'.start == b.start && b'.end == b.end
    && b'.paymentStatus == b.paymentStatus && (Live(b') ==> Live(b))
  }

  lemma ShrinkKeepsExclusive(bookings: map<Id, Booking>, id: Id, b': Booking)
    requires Exclusive(bookings) && id in bookings && Shrinks(bookings[id], b')
    ensures Exclusive(bookings[id := b'])
  {
    forall j | j in bookings && j != id && Compete(b', bookings[j])
      ensures Apart(b', bookings[j]) && Apart(bookings[j], b')
    {
      assert Compete(bookings[id], bookings[j]);
    }
  }

  /** The checks of creation and rescheduling are what exclusivity needs for a new interval. */
  lemma PlaceKeepsExclusive(s: State, id: Id, b: Booking)
    requires Exclusive(s.bookings)
    requires !HasBlockingOverlap(s, b.mentorId, b.menteeId, b.start, b.end, Some(id))
    requires !HasBookingConflict(s, b.menteeId, b.start, b.end, Some(id))
    ensures Exclusive(s.bookings[id := b])
  {
    forall j | j in s.bookings && j != id && Compete(b, s.bookings[j])
      ensures Apart(b, s.bookings[j]) && Apart(s.bookings[j], b)
    {
      if s.bookings[j].menteeId == b.menteeId {
        assert j !in FindOverlappingForUser(s.bookings, b.menteeId, MentorOf(s, b.menteeId), b.start, b.end);
      } else {
        assert j !in FindOverlapping(s.bookings, b.mentorId, b.start, b.end);
      }
    }
  }

  /** A creation has no booking to exclude, which only makes its checks stricter. */
  lemma ExcludingFreshId(s: State, id: Id, mentor: Id, mentee: Id, start: int, end: int)
    ensures HasBlockingOverlap(s, mentor, mentee, start, end, Some(id)) ==>
              HasBlockingOverlap(s, mentor, mentee, start, end, None)
    ensures HasBookingConflict(s, mentee, start, end, Some(id)) ==> HasBookingConflict(s, mentee, start, end, None)
  {
  }

  lemma CreateKeepsExclusive(s: State, id: Id, i: CreateInput, now: int)
    requires Exclusive(s.bookings) && id !in s.bookings
    ensures Exclusive(Create(s, id, i, now).0.bookings)
  {
    if Create(s, id, i, now).1.Done? {
      var b := NewBooking(s.mentors[i.mentorId], i);
      ExcludingFreshId(s, id, i.mentorId, i.menteeId, i.start.value, i.end.value);
      PlaceKeepsExclusive(s, id, b);
      assert Create(s, id, i, now).0.bookings == s.bookings[id := b];
    }
  }

  /** Settling changes at most the status STARTED and the settlement time of that booking. */
  lemma SettleChanges(s: State, id: Id, now: int)
    ensures var bookings := Settle(s, id, now).0.bookings;
            || bookings == s.bookings
            || (id in s.bookings && id in bookings && bookings == s.bookings[id := bookings[id]]
                && Shrinks(s.bookings[id], bookings[id]))
  {
    if NeedsSettlement(s, id) {
      var b := s.bookings[id];
      var completed := if b.status == Started then Complete(s, id) else s;
      assert PayOrRefund(completed, id, b).state.bookings == completed.bookings;
    }
  }

  /** A step that overwrites one booking with one that occupies no more. */
  lemma WriteKeepsExclusive(s: State, s': State, id: Id)
    requires Exclusive(s.bookings) && id in s.bookings
    requires id in s'.bookings && s'.bookings == s.bookings[id := s'.bookings[id]]
    requires Shrinks(s.bookings[id], s'.bookings[id])
    ensures Exclusive(s'.bookings)
  {
    ShrinkKeepsExclusive(s.bookings, id, s'.bookings[id]);
  }

  lemma RescheduleKeepsExclusive(
    s: State, id: Id, user: Id, newStart: Option<int>, newEnd: Option<int>, now: int, rules: Availability.Rules)
    requires Exclusive(s.bookings)
    ensures Exclusive(Reschedule(s, id, user, newStart, newEnd, now, rules).0.bookings)
  {
    if Reschedule(s, id, user, newStart, newEnd, now, rules).1.Done? {
      PlaceKeepsExclusive(s, id, s.bookings[id].(start := newStart.value, end := newEnd.value));
    }
  }

  lemma CancelKeepsExclusive(s: State, id: Id, user: Id, byMentor: bool, now: int)
    requires Exclusive(s.bookings)
    ensures Exclusive(Cancel(s, id, user, byMentor, now).0.bookings)
  {
    if !Cancel(s, id, user, byMentor, now).1.Rejected? {
      WriteKeepsExclusive(s, Cancel(s, id, user, byMentor, now).0, id);
    }
  }

  lemma SettleKeepsExclusive(s: State, id: Id, now: int)
    requires Exclusive(s.bookings)
    ensures Exclusive(Settle(s, id, now).0.bookings)
  {
    SettleChanges(s, id, now);
    if Settle(s, id, now).0.bookings != s.bookings {
      WriteKeepsExclusive(s, Settle(s, id, now).0, id);
    }
  }

  lemma StepKeepsExclusive(s: State, op: Op)
    requires Exclusive(s.bookings)
    ensures Exclusive(Step(s, op).bookings)
  {
    match op
    case TopUp(_, _) =>
    case CreateOp(id, i, now) =>
      if id !in s.bookings {
        CreateKeepsExclusive(s, id, i, now);
      }
    case RescheduleOp(id, user, newStart, newEnd, now, rules) =>
      RescheduleKeepsExclusive(s, id, user, newStart, newEnd, now, rules);
    case CancelOp(id, user, byMentor, now) =>
      CancelKeepsExclusive(s, id, user, byMentor, now);
    case JoinOp(id, user, now) =>
      if Perform(s, op).1.Done? {
        WriteKeepsExclusive(s, Step(s, op), id);
      }
    case TerminateOp(id, user, now) =>
      if Perform(s, op).1.Done? {
        WriteKeepsExclusive(s, Step(s, op), id);
      }
    case SettleOp(id, now) =>
      SettleKeepsExclusive(s, id, now);
  }

  lemma {:induction false} RunExclusive(s: State, ops: seq<Op>)
    requires Exclusive(s.bookings)
    ensures Exclusive(Run(s, ops).bookings)
  {
    if ops != [] {
      RunExclusive(s, ops[..|ops| - 1]);
      StepKeepsExclusive(Run(s, ops[..|ops| - 1]), ops[|ops| - 1]);
    }
  }

  /** At no instant is a mentor in two live paid sessions, or a mentee in two live sessions. */
  lemma NobodyBookedTwiceInOneRole(s: State, ops: seq<Op>, i: Id, j: Id, t: int)
    requires Initial(s)
    requires i in Run(s, ops).bookings && j in Run(s, ops).bookings
    requires Compete(Run(s, ops).bookings[i], Run(s, ops).bookings[j])
    requires Run(s, ops).bookings[i].start <= t < Run(s, ops).bookings[i].end
    requires Run(s, ops).bookings[j].start <= t < Run(s, ops).bookings[j].end
    ensures i == j
  {
    RunExclusive(s, ops);
  }

  // ---- what the overlap queries do not protect ------------------------------------------------

  /** A paid booking that takes place or has taken place. */
  predicate Held(b: Booking) {
    b.paymentStatus == Paid && (Live(b) || b.status == Completed)
  }

  ghost predicate HeldExclusive(bookings: map<Id, Booking>) {
    forall i, j :: i in bookings && j in bookings && i != j
                   && Held(bookings[i]) && Held(bookings[j]) && bookings[i].mentorId == bookings[j].mentorId ==>
      Apart(bookings[i], bookings[j])
  }

  /** A completed paid session of the mentor reaches into the interval. */
  predicate CompletedOverlaps(s: State, mentor: Id, start: int, end: int) {
    exists id | id in s.bookings ::
      && s.bookings[id].mentorId == mentor && s.bookings[id].paymentStatus == Paid
      && s.bookings[id].status == Completed && s.bookings[id].start < end && start < s.bookings[id].end
  }

  /**
    The overlap queries skip COMPLETED bookings, and a session can be completed up to a
    minute before it ends.  Counting completed sessions, a new paid booking keeps the
    mentor's sessions apart exactly when no completed one reaches into its interval.
   */
  lemma CreateKeepsHeldExclusiveExactly(s: State, id: Id, i: CreateInput, now: int)
    requires HeldExclusive(s.bookings) && id !in s.bookings
    requires Create(s, id, i, now).1.Done?
    ensures HeldExclusive(Create(s, id, i, now).0.bookings)
            <==> i.paymentType != Coins || !CompletedOverlaps(s, i.mentorId, i.start.value, i.end.value)
  {
    var b := NewBooking(s.mentors[i.mentorId], i);
    assert Create(s, id, i, now).0.bookings == s.bookings[id := b];
    ExcludingFreshId(s, id, i.mentorId, i.menteeId, i.start.value, i.end.value);
    PlaceKeepsHeldExclusiveExactly(s, id, b);
  }

  /** A live booking placed at an interval that is clear of other live paid sessions of the mentor. */
  lemma PlaceKeepsHeldExclusiveExactly(s: State, id: Id, b: Booking)
    requires HeldExclusive(s.bookings) && Live(b)
    requires !HasBlockingOverlap(s, b.mentorId, b.menteeId, b.start, b.end, Some(id))
    requires id in s.bookings ==> s.bookings[id].status != Completed
    ensures HeldExclusive(s.bookings[id := b])
            <==> b.paymentStatus != Paid || !CompletedOverlaps(s, b.mentorId, b.start, b.end)
  {
    var bookings := s.bookings[id := b];
    if b.paymentStatus == Paid && CompletedOverlaps(s, b.mentorId, b.start, b.end) {
      var j :| j in s.bookings && s.bookings[j].mentorId == b.mentorId && s.bookings[j].paymentStatus == Paid
               && s.bookings[j].status == Completed && s.bookings[j].start < b.end && b.start < s.bookings[j].end;
      assert bookings[j] == s.bookings[j];
      assert Held(bookings[j]) && Held(bookings[id]) && !Apart(bookings[j], bookings[id]);
    } else {
      forall j | j in s.bookings && j != id && Held(b) && Held(s.bookings[j]) && s.bookings[j].mentorId == b.mentorId
        ensures Apart(s.bookings[j], b) && Apart(b, s.bookings[j])
      {
        assert s.bookings[j].status == Completed || j !in FindOverlapping(s.bookings, b.mentorId, b.start, b.end);
      }
    }
  }

  /** A rescheduling of a paid booking keeps the mentor's sessions apart under the same condition. */
  lemma RescheduleKeepsHeldExclusiveExactly(
    s: State, id: Id, user: Id, newStart: Option<int>, newEnd: Option<int>, now: int, rules: Availability.Rules)
    requires HeldExclusive(s.bookings)
    requires Reschedule(s, id, user, newStart, newEnd, now, rules).1.Done?
    ensures var b := Reschedule(s, id, user, newStart, newEnd, now, rules).0.bookings[id];
            HeldExclusive(Reschedule(s, id, user, newStart, newEnd, now, rules).0.bookings)
            <==> b.paymentStatus != Paid || !CompletedOverlaps(s, b.mentorId, b.start, b.end)
  {
    var b := s.bookings[id].(start := newStart.value, end := newEnd.value);
    if b.paymentStatus == PaymentFailed {
      UnheldKeepsHeldExclusive(s.bookings, id, b);
    } else {
      PlaceKeepsHeldExclusiveExactly(s, id, b);
    }
  }

  lemma UnheldKeepsHeldExclusive(bookings: map<Id, Booking>, id: Id, b: Booking)
    requires HeldExclusive(bookings) && !Held(b)
    ensures HeldExclusive(bookings[id := b])
  {
  }
}
