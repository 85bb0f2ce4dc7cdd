/**
  Who is blocked.  Over every run of booking steps, those cut short by an exception
  included, the blocked users are exactly the mentors for whom settlements have recorded a
  no-show of at least two different sessions: retrying the settlement of one session never
  blocks anybody.  A cancelled session counts like any other, and the sessions counted are
  exactly the uncancelled ones when no settlement records a cancelled session first.
 */
module NoShows {
  import opened Wrappers
  import opened Bookings
  import opened Soundness

  /** The step settles a paid session of the mentor who has not come to it. */
  predicate RecordsNoShow(s: State, op: Op, m: Id) {
    && op.SettleOp? && NeedsSettlement(s, op.id)
    && s.bookings[op.id].mentorUserId.Some? && !MentorJoined(s.bookings[op.id])
    && MentorOf(s, s.bookings[op.id].mentorUserId.value) == Some(m) && m in s.mentors
  }

  /** The sessions for which the run has recorded a no-show of the mentor. */
  ghost function Missed(s: State, ops: seq<Op>, m: Id): set<Id> {
    if ops == [] then {}
    else
      var before, op := Run(s, ops[..|ops| - 1]), ops[|ops| - 1];
      Missed(s, ops[..|ops| - 1], m) + if RecordsNoShow(before, op, m) then {op.id} else {}
  }

  function Skipped(s: State, m: Id): nat {
    if m in s.mentors then s.mentors[m].skippedSessions else 0
  }

  // ---- what one step records ---------------------------------------------------------------

  lemma PayOrRefundRecords(s: State, id: Id, b: Booking, m: Id)
    ensures var records := b.mentorUserId.Some? && !MentorJoined(b)
                           && MentorOf(s, b.mentorUserId.value) == Some(m) && m in s.mentors;
            && Skipped(PayOrRefund(s, id, b).state, m) == Skipped(s, m) + (if records then 1 else 0)
            && (records && Skipped(s, m) == 0 ==> PayOrRefund(s, id, b).ok)
  {
  }

  /** A settlement adds one to the count exactly when it records a no-show, and the first one cannot fail. */
  lemma SettleRecords(s: State, id: Id, now: int, m: Id)
    ensures Skipped(Settle(s, id, now).0, m) == Skipped(s, m) + if RecordsNoShow(s, SettleOp(id, now), m) then 1 else 0
    ensures RecordsNoShow(s, SettleOp(id, now), m) && Skipped(s, m) == 0 ==>
              id in Settle(s, id, now).0.bookings && Settle(s, id, now).0.bookings[id].settledAt.Some?
  {
    if NeedsSettlement(s, id) {
      var b := s.bookings[id];
      var completed := if b.status == Started then Complete(s, id) else s;
      assert Skipped(completed, m) == Skipped(s, m) && (m in completed.mentors <==> m in s.mentors);
      PayOrRefundRecords(completed, id, b, m);
    }
  }

  lemma OtherStepRecordsNothing(s: State, op: Op, m: Id)
    requires !op.SettleOp?
    ensures Skipped(Step(s, op), m) == Skipped(s, m)
  {
    OtherStepSameRecord(s, op);
  }

  // ---- the count over runs -------------------------------------------------------------------

  ghost predicate AllSettled(s: State, ids: set<Id>) {
    forall id :: id in ids ==> id in s.bookings && s.bookings[id].settledAt.Some?
  }

  /** Up to the second no-show the count is exact, and the sessions counted are settled for good. */
  ghost predicate CountExact(s: State, m: Id, missed: set<Id>) {
    if Skipped(s, m) <= 1 then Skipped(s, m) == |missed| && AllSettled(s, missed) else |missed| >= 2
  }

  lemma StepCountExact(s: State, op: Op, m: Id, missed: set<Id>)
    requires CountExact(s, m, missed)
    ensures CountExact(Step(s, op), m, missed + if RecordsNoShow(s, op, m) then {op.id} else {})
  {
    if op.SettleOp? {
      SettleRecords(s, op.id, op.now, m);
    } else {
      OtherStepRecordsNothing(s, op, m);
    }
    if Skipped(s, m) <= 1 {
      forall id | id in missed
        ensures id in Step(s, op).bookings && Step(s, op).bookings[id].settledAt.Some?
      {
        SettledStays(s, op, id);
      }
      if RecordsNoShow(s, op, m) {
        assert op.id !in missed;
      } else {
        assert missed + {} == missed;
      }
    } else if RecordsNoShow(s, op, m) {
      GrowingSet(missed, op.id);
    }
  }

  lemma GrowingSet(a: set<Id>, id: Id)
    ensures |a + {id}| >= |a|
  {
    if id in a {
      assert a + {id} == a;
    }
  }

  lemma {:induction false} RunCountExact(s: State, ops: seq<Op>, m: Id)
    requires Initial(s)
    ensures CountExact(Run(s, ops), m, Missed(s, ops, m))
  {
    if ops != [] {
      RunCountExact(s, ops[..|ops| - 1], m);
      StepCountExact(Run(s, ops[..|ops| - 1]), ops[|ops| - 1], m, Missed(s, ops[..|ops| - 1], m));
    }
  }

  // ---- blocking follows the count ------------------------------------------------------------

  /** The user is a mentor with at least two no-shows on record. */
  predicate Unreliable(s: State, user: Id) {
    user in s.mentorOf && Skipped(s, s.mentorOf[user]) >= 2
  }

  ghost predicate BlockedByCount(s: State) {
    forall u :: u in s.blocked <==> Unreliable(s, u)
  }

  /** Nothing changed that blocking looks at. */
  ghost predicate SameRecord(s: State, s': State) {
    && s'.blocked == s.blocked && s'.mentorOf == s.mentorOf && s'.mentors.Keys == s.mentors.Keys
    && forall m :: m in s.mentors ==> s'.mentors[m].skippedSessions == s.mentors[m].skippedSessions
  }

  lemma SameRecordKeepsBlocked(s: State, s': State)
    requires BlockedByCount(s) && SameRecord(s, s')
    ensures BlockedByCount(s')
  {
    forall u
      ensures Unreliable(s', u) == Unreliable(s, u)
    {
    }
  }

  /** Recording a no-show and blocking from the second one on. */
  function Noted(s: State, user: Id): State {
    var (noted, skipped) := RecordNoShow(s, user);
    if skipped >= 2 then noted.(blocked := noted.blocked + {user}) else noted
  }

  /** No other user shares the mentor, so nobody else's record moves. */
  lemma NotedKeepsBlocked(s: State, user: Id)
    requires MentorsWellFormed(s) && BlockedByCount(s)
    ensures BlockedByCount(Noted(s, user))
  {
    forall u | u != user
      ensures Unreliable(Noted(s, user), u) == Unreliable(s, u)
    {
      assert user in s.mentorOf && u in s.mentorOf ==> s.mentorOf[u] != s.mentorOf[user];
    }
  }

  lemma PayOrRefundKeepsBlocked(s: State, id: Id, b: Booking)
    requires MentorsWellFormed(s) && BlockedByCount(s)
    ensures BlockedByCount(PayOrRefund(s, id, b).state)
  {
    var s' := PayOrRefund(s, id, b).state;
    if b.mentorUserId.Some? && !MentorJoined(b) {
      NotedKeepsBlocked(s, b.mentorUserId.value);
      assert SameRecord(Noted(s, b.mentorUserId.value), s');
      SameRecordKeepsBlocked(Noted(s, b.mentorUserId.value), s');
    } else {
      assert SameRecord(s, s');
      SameRecordKeepsBlocked(s, s');
    }
  }

  lemma SettleKeepsBlocked(s: State, id: Id, now: int)
    requires MentorsWellFormed(s) && BlockedByCount(s)
    ensures BlockedByCount(Settle(s, id, now).0)
  {
    var s' := Settle(s, id, now).0;
    if NeedsSettlement(s, id) {
      var b := s.bookings[id];
      var completed := if b.status == Started then Complete(s, id) else s;
      assert SameRecord(s, completed) && SamePeople(s, completed);
      SameRecordKeepsBlocked(s, completed);
      SamePeopleSound(s, completed);
      PayOrRefundKeepsBlocked(completed, id, b);
      SameRecordKeepsBlocked(PayOrRefund(completed, id, b).state, s');
    }
  }

  lemma OtherStepSameRecord(s: State, op: Op)
    requires !op.SettleOp?
    ensures SameRecord(s, Step(s, op))
  {
    match op
    case CancelOp(id, user, byMentor, now) => CancelSameRecord(s, id, user, byMentor, now);
    case TerminateOp(id, user, now) => TerminateSameRecord(s, id, user, now);
    case CreateOp(id, i, now) => CreateSameRecord(s, id, i, now);
    case _ =>
  }

  lemma CancelSameRecord(s: State, id: Id, user: Id, byMentor: bool, now: int)
    ensures SameRecord(s, Cancel(s, id, user, byMentor, now).0)
  {
  }

  lemma TerminateSameRecord(s: State, id: Id, user: Id, now: int)
    ensures SameRecord(s, Terminate(s, id, user, now).0)
  {
  }

  lemma CreateSameRecord(s: State, id: Id, i: CreateInput, now: int)
    ensures SameRecord(s, Create(s, id, i, now).0)
  {
  }

  lemma {:induction false} RunBlockedByCount(s: State, ops: seq<Op>)
    requires Initial(s) && s.blocked == {}
    ensures BlockedByCount(Run(s, ops)) && Run(s, ops).mentorOf == s.mentorOf
  {
    if ops == [] {
      assert forall u :: !Unreliable(s, u);
    } else {
      var before, op := Run(s, ops[..|ops| - 1]), ops[|ops| - 1];
      RunBlockedByCount(s, ops[..|ops| - 1]);
      RunSound(s, ops[..|ops| - 1]);
      StepSamePeople(before, op);
      if op.SettleOp? {
        SettleKeepsBlocked(before, op.id, op.now);
      } else {
        OtherStepSameRecord(before, op);
        SameRecordKeepsBlocked(before, Step(before, op));
      }
    }
  }

  /**
    Over any run a user is blocked if and only if they are a mentor with recorded no-shows
    of at least two different sessions.
   */
  lemma RunBlockedExactly(s: State, ops: seq<Op>, u: Id)
    requires Initial(s) && s.blocked == {}
    ensures u in Run(s, ops).blocked <==> u in s.mentorOf && |Missed(s, ops, s.mentorOf[u])| >= 2
  {
    RunBlockedByCount(s, ops);
    if u in s.mentorOf {
      RunCountExact(s, ops, s.mentorOf[u]);
    }
  }

  // ---- cancelled sessions ------------------------------------------------------------------------

  /** The step records a no-show of a session that was not cancelled. */
  predicate RecordsHeld(s: State, op: Op, m: Id) {
    RecordsNoShow(s, op, m) && !IsCancelled(s.bookings[op.id].status)
  }

  /** The sessions recorded as missed while they stood. */
  ghost function MissedHeld(s: State, ops: seq<Op>, m: Id): set<Id> {
    if ops == [] then {}
    else
      var before, op := Run(s, ops[..|ops| - 1]), ops[|ops| - 1];
      MissedHeld(s, ops[..|ops| - 1], m) + if RecordsHeld(before, op, m) then {op.id} else {}
  }

  /** No settlement records a no-show of a cancelled session that was not on record before. */
  ghost predicate NoCancelledCounted(s: State, ops: seq<Op>, m: Id) {
    ops == [] ||
    (var before, op := Run(s, ops[..|ops| - 1]), ops[|ops| - 1];
     && NoCancelledCounted(s, ops[..|ops| - 1], m)
     && (RecordsNoShow(before, op, m) && IsCancelled(before.bookings[op.id].status) ==>
           op.id in MissedHeld(s, ops[..|ops| - 1], m)))
  }

  lemma {:induction false} HeldAreMissed(s: State, ops: seq<Op>, m: Id)
    ensures MissedHeld(s, ops, m) <= Missed(s, ops, m)
  {
    if ops != [] {
      HeldAreMissed(s, ops[..|ops| - 1], m);
    }
  }

  /** A session that is on record only as a cancelled one can no longer be recorded as held. */
  lemma {:induction false} CancelledStayOut(s: State, ops: seq<Op>, m: Id, id: Id)
    requires id in Missed(s, ops, m) && id !in MissedHeld(s, ops, m)
    ensures id in Run(s, ops).bookings && Past(Run(s, ops).bookings[id])
  {
    var prefix, op := ops[..|ops| - 1], ops[|ops| - 1];
    var before := Run(s, prefix);
    if id in Missed(s, prefix, m) {
      CancelledStayOut(s, prefix, m, id);
    }
    PastStays(before, op, id);
  }

  /** The sessions on record are the uncancelled ones exactly when no cancelled session is recorded first. */
  lemma {:induction false} MissedAreHeldExactly(s: State, ops: seq<Op>, m: Id)
    ensures Missed(s, ops, m) == MissedHeld(s, ops, m) <==> NoCancelledCounted(s, ops, m)
  {
    if ops != [] {
      var prefix, op := ops[..|ops| - 1], ops[|ops| - 1];
      MissedAreHeldExactly(s, prefix, m);
      HeldAreMissed(s, prefix, m);
      if Missed(s, prefix, m) != MissedHeld(s, prefix, m) {
        var id :| id in Missed(s, prefix, m) && id !in MissedHeld(s, prefix, m);
        CancelledStayOut(s, prefix, m, id);
        assert id in Missed(s, ops, m) && id !in MissedHeld(s, ops, m);
      }
    }
  }

  /** So, as long as no cancelled session is recorded first, only mentors who missed two standing sessions are blocked. */
  lemma BlockedForHeldSessions(s: State, ops: seq<Op>, u: Id)
    requires Initial(s) && s.blocked == {}
    requires u in s.mentorOf ==> NoCancelledCounted(s, ops, s.mentorOf[u])
    ensures u in Run(s, ops).blocked <==> u in s.mentorOf && |MissedHeld(s, ops, s.mentorOf[u])| >= 2
  {
    RunBlockedExactly(s, ops, u);
    if u in s.mentorOf {
      MissedAreHeldExactly(s, ops, s.mentorOf[u]);
    }
  }
}
