/**
  A user can be a mentor in one session and a mentee in another.  A new session is checked
  against everything its mentee takes part in, in either role, but not against what its
  mentor's user has booked as a mentee.
 */
module BothRoles {
  import opened Wrappers
  import opened Bookings
  import opened Exclusivity
  import opened Soundness
  import Availability

  /** The mentee of `a` is the mentor of `b`. */
  predicate Crosses(mentorOf: map<Id, Id>, a: Booking, b: Booking) {
    a.menteeId in mentorOf && mentorOf[a.menteeId] == b.mentorId
  }

  /** No user is a mentee in one live session and the mentor of another at the same time. */
  ghost predicate RolesApart(bookings: map<Id, Booking>, mentorOf: map<Id, Id>) {
    forall i, j :: i in bookings && j in bookings && i != j
                   && Live(bookings[i]) && Live(bookings[j]) && Crosses(mentorOf, bookings[i], bookings[j]) ==>
      Apart(bookings[i], bookings[j])
  }

  /** Nobody is in two sessions at once, in whatever roles. */
  ghost predicate ExclusivePerUser(s: State) {
    Exclusive(s.bookings) && RolesApart(s.bookings, s.mentorOf)
  }

  /** The user behind the mentor is the mentee of another live session that overlaps. */
  predicate MentorBusyAsMentee(s: State, mentor: Id, start: int, end: int, exclude: Option<Id>) {
    exists j | j in s.bookings ::
      && exclude != Some(j) && Live(s.bookings[j]) && s.bookings[j].start < end && start < s.bookings[j].end
      && s.bookings[j].menteeId in s.mentorOf && s.mentorOf[s.bookings[j].menteeId] == mentor
  }

  /** The participant test covers both roles of the mentee. */
  lemma MenteeApart(s: State, id: Id, b: Booking, j: Id)
    requires !HasBookingConflict(s, b.menteeId, b.start, b.end, Some(id))
    requires j in s.bookings && j != id && Live(s.bookings[j]) && Crosses(s.mentorOf, b, s.bookings[j])
    ensures Apart(b, s.bookings[j])
  {
    assert j !in FindOverlappingForUser(s.bookings, b.menteeId, MentorOf(s, b.menteeId), b.start, b.end);
  }

  /** So a live booking that passes it keeps the roles apart exactly when the mentor is not busy as a mentee. */
  lemma PlaceKeepsRolesExactly(s: State, id: Id, b: Booking)
    requires RolesApart(s.bookings, s.mentorOf) && Live(b)
    requires !HasBookingConflict(s, b.menteeId, b.start, b.end, Some(id))
    ensures RolesApart(s.bookings[id := b], s.mentorOf) <==> !MentorBusyAsMentee(s, b.mentorId, b.start, b.end, Some(id))
  {
    var after := s.bookings[id := b];
    if MentorBusyAsMentee(s, b.mentorId, b.start, b.end, Some(id)) {
      var j :| j in s.bookings && j != id && Live(s.bookings[j])
               && s.bookings[j].start < b.end && b.start < s.bookings[j].end
               && s.bookings[j].menteeId in s.mentorOf && s.mentorOf[s.bookings[j].menteeId] == b.mentorId;
      assert after[j] == s.bookings[j] && after[id] == b;
      assert Crosses(s.mentorOf, after[j], after[id]) && !Apart(after[j], after[id]);
    } else {
      forall i, j | i in after && j in after && i != j
                    && Live(after[i]) && Live(after[j]) && Crosses(s.mentorOf, after[i], after[j])
        ensures Apart(after[i], after[j])
      {
        if i == id {
          MenteeApart(s, id, b, j);
        } else if j == id {
          assert Apart(s.bookings[i], b);
        }
      }
    }
  }

  /** A creation keeps every user exclusive if and only if the mentor's user is not busy as a mentee. */
  lemma CreateKeepsUsersExclusiveExactly(s: State, id: Id, i: CreateInput, now: int)
    requires ExclusivePerUser(s) && id !in s.bookings && Create(s, id, i, now).1.Done?
    ensures ExclusivePerUser(Create(s, id, i, now).0)
            <==> !MentorBusyAsMentee(s, i.mentorId, i.start.value, i.end.value, None)
  {
    var b := NewBooking(s.mentors[i.mentorId], i);
    CreateAddsOne(s, id, i, now);
    CreateKeepsMentorOf(s, id, i, now);
    CreateKeepsExclusive(s, id, i, now);
    ExcludingFreshId(s, id, i.mentorId, i.menteeId, i.start.value, i.end.value);
    PlaceKeepsRolesExactly(s, id, b);
    assert MentorBusyAsMentee(s, i.mentorId, b.start, b.end, Some(id))
      <==> MentorBusyAsMentee(s, i.mentorId, b.start, b.end, None);
  }

  lemma CreateKeepsMentorOf(s: State, id: Id, i: CreateInput, now: int)
    ensures Create(s, id, i, now).0.mentorOf == s.mentorOf
  {
  }

  /** And so does a rescheduling, which leaves the booking itself out. */
  lemma RescheduleKeepsUsersExclusiveExactly(
    s: State, id: Id, user: Id, newStart: Option<int>, newEnd: Option<int>, now: int, rules: Availability.Rules)
    requires ExclusivePerUser(s) && Reschedule(s, id, user, newStart, newEnd, now, rules).1.Done?
    ensures id in s.bookings && newStart.Some? && newEnd.Some?
    ensures Live(s.bookings[id]) ==>
              (ExclusivePerUser(Reschedule(s, id, user, newStart, newEnd, now, rules).0)
               <==> !MentorBusyAsMentee(s, s.bookings[id].mentorId, newStart.value, newEnd.value, Some(id)))
    ensures !Live(s.bookings[id]) ==> ExclusivePerUser(Reschedule(s, id, user, newStart, newEnd, now, rules).0)
  {
    var b := s.bookings[id].(start := newStart.value, end := newEnd.value);
    RescheduleKeepsExclusive(s, id, user, newStart, newEnd, now, rules);
    if Live(b) {
      PlaceKeepsRolesExactly(s, id, b);
    } else {
      DeadKeepsRoles(s.bookings, s.mentorOf, id, b);
    }
  }

  lemma DeadKeepsRoles(bookings: map<Id, Booking>, mentorOf: map<Id, Id>, id: Id, b: Booking)
    requires RolesApart(bookings, mentorOf) && !Live(b)
    ensures RolesApart(bookings[id := b], mentorOf)
  {
  }

  lemma ShrinkKeepsRoles(bookings: map<Id, Booking>, mentorOf: map<Id, Id>, id: Id, b': Booking)
    requires RolesApart(bookings, mentorOf) && id in bookings && Shrinks(bookings[id], b')
    ensures RolesApart(bookings[id := b'], mentorOf)
  {
    var after := bookings[id := b'];
    forall i, j | i in after && j in after && i != j
                  && Live(after[i]) && Live(after[j]) && Crosses(mentorOf, after[i], after[j])
      ensures Apart(after[i], after[j])
    {
      assert Crosses(mentorOf, bookings[i], bookings[j]) && Apart(bookings[i], bookings[j]);
    }
  }

  /** The mentor of the session to be placed is not busy as a mentee; other operations place none. */
  predicate MentorFree(s: State, op: Op) {
    match op
    case CreateOp(_, i, _) =>
      i.start.Some? && i.end.Some? ==> !MentorBusyAsMentee(s, i.mentorId, i.start.value, i.end.value, None)
    case RescheduleOp(id, _, newStart, newEnd, _, _) =>
      id in s.bookings && newStart.Some? && newEnd.Some? ==>
        !MentorBusyAsMentee(s, s.bookings[id].mentorId, newStart.value, newEnd.value, Some(id))
    case _ => true
  }

  lemma OneBookingWritten(s: State, op: Op)
    requires !op.CreateOp? && !op.RescheduleOp?
    ensures var bookings := Step(s, op).bookings;
            bookings == s.bookings
            || exists id :: id in s.bookings && id in bookings
                            && bookings == s.bookings[id := bookings[id]] && Shrinks(s.bookings[id], bookings[id])
  {
    match op
    case CancelOp(id, user, byMentor, now) => CancelChanges(s, id, user, byMentor, now);
    case SettleOp(id, now) => SettleChanges(s, id, now);
    case JoinOp(id, _, _) =>
      assert Perform(s, op).1.Done? ==> Step(s, op).bookings == s.bookings[id := Step(s, op).bookings[id]];
    case TerminateOp(id, _, _) =>
      assert Perform(s, op).1.Done? ==> Step(s, op).bookings == s.bookings[id := Step(s, op).bookings[id]];
    case TopUp(_, _) =>
  }

  lemma CancelChanges(s: State, id: Id, user: Id, byMentor: bool, now: int)
    ensures var bookings := Cancel(s, id, user, byMentor, now).0.bookings;
            || bookings == s.bookings
            || (id in s.bookings && id in bookings && bookings == s.bookings[id := bookings[id]]
                && Shrinks(s.bookings[id], bookings[id]))
  {
  }

  lemma StepKeepsUsersExclusive(s: State, op: Op)
    requires ExclusivePerUser(s) && MentorFree(s, op)
    ensures ExclusivePerUser(Step(s, op))
  {
    StepKeepsExclusive(s, op);
    StepSamePeople(s, op);
    match op
    case CreateOp(id, i, now) =>
      if id !in s.bookings && Create(s, id, i, now).1.Done? {
        CreateKeepsUsersExclusiveExactly(s, id, i, now);
      } else if id !in s.bookings {
        CreateAddsOne(s, id, i, now);
      }
    case RescheduleOp(id, user, newStart, newEnd, now, rules) =>
      if Perform(s, op).1.Done? {
        RescheduleKeepsUsersExclusiveExactly(s, id, user, newStart, newEnd, now, rules);
      }
    case _ =>
      OneBookingWritten(s, op);
      var bookings := Step(s, op).bookings;
      if bookings != s.bookings {
        var id :| id in s.bookings && id in bookings
                  && bookings == s.bookings[id := bookings[id]] && Shrinks(s.bookings[id], bookings[id]);
        ShrinkKeepsRoles(s.bookings, s.mentorOf, id, bookings[id]);
      }
  }

  /** Every session of the run is placed while its mentor is not busy as a mentee. */
  ghost predicate MentorsFree(s: State, ops: seq<Op>) {
    ops == [] ||
    (MentorsFree(s, ops[..|ops| - 1]) && MentorFree(Run(s, ops[..|ops| - 1]), ops[|ops| - 1]))
  }

  lemma {:induction false} RunKeepsUsersExclusive(s: State, ops: seq<Op>)
    requires Initial(s) && MentorsFree(s, ops)
    ensures ExclusivePerUser(Run(s, ops))
  {
    if ops != [] {
      RunKeepsUsersExclusive(s, ops[..|ops| - 1]);
      StepKeepsUsersExclusive(Run(s, ops[..|ops| - 1]), ops[|ops| - 1]);
    }
  }

  predicate TakesPart(mentorOf: map<Id, Id>, user: Id, b: Booking) {
    b.menteeId == user || (user in mentorOf && mentorOf[user] == b.mentorId)
  }

  /**
    Over any run in which each session is placed while its mentor is not busy as a mentee, no
    user is in two live sessions at the same time, in whatever roles; as a mentor of both,
    unpaid sessions may still compete.
   */
  lemma NobodyBookedTwice(s: State, ops: seq<Op>, user: Id, i: Id, j: Id, t: int)
    requires Initial(s) && MentorsFree(s, ops)
    requires i in Run(s, ops).bookings && j in Run(s, ops).bookings
    requires var a, b := Run(s, ops).bookings[i], Run(s, ops).bookings[j];
             && Live(a) && Live(b)
             && TakesPart(Run(s, ops).mentorOf, user, a) && TakesPart(Run(s, ops).mentorOf, user, b)
             && (a.menteeId == user || b.menteeId == user || (a.paymentStatus == Paid && b.paymentStatus == Paid))
             && a.start <= t < a.end && b.start <= t < b.end
    ensures i == j
  {
    RunKeepsUsersExclusive(s, ops);
  }
}
