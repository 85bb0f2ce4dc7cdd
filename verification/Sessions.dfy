/**
  The statistics a mentor carries, `totalSessions` and `lastSessionAt`, are kept by
  increments.  They are proved to equal, over every run, what the backfill script computes
  from scratch: the number of the mentor's COMPLETED bookings and their latest end.
 */
module Sessions {
  import opened Wrappers
  import opened Bookings
  import opened Soundness

  ghost function CompletedOf(bookings: map<Id, Booking>, mentor: Id): set<Id> {
    set id | id in bookings && bookings[id].status == Completed && bookings[id].mentorId == mentor
  }

  /** `{ $max: "$endTime" }` over the completed bookings, absent when there is none. */
  ghost predicate IsLatestEnd(bookings: map<Id, Booking>, mentor: Id, latest: Option<int>) {
    match latest
    case None => CompletedOf(bookings, mentor) == {}
    case Some(t) =>
      && (exists id :: id in CompletedOf(bookings, mentor) && bookings[id].end == t)
      && (forall id :: id in CompletedOf(bookings, mentor) ==> bookings[id].end <= t)
  }

  ghost predicate StatsExact(bookings: map<Id, Booking>, mentors: map<Id, Mentor>) {
    forall m :: m in mentors ==>
      && mentors[m].totalSessions == |CompletedOf(bookings, m)|
      && IsLatestEnd(bookings, m, mentors[m].lastSessionAt)
  }

  /** `b'` counts as a completed session exactly when `b` does, for the same mentor and end. */
  predicate SameSession(b: Booking, b': Booking) {
    && b'.mentorId == b.mentorId
    && (b'.status == Completed <==> b.status == Completed)
    && (b.status == Completed ==> b'.end == b.end)
  }

  lemma PutSameSession(bookings: map<Id, Booking>, mentors: map<Id, Mentor>, id: Id, b': Booking)
    requires StatsExact(bookings, mentors)
    requires if id in bookings then SameSession(bookings[id], b') else b'.status != Completed
    ensures StatsExact(bookings[id := b'], mentors)
  {
    forall m | m in mentors
      ensures CompletedOf(bookings[id := b'], m) == CompletedOf(bookings, m)
      ensures IsLatestEnd(bookings[id := b'], m, mentors[m].lastSessionAt)
    {
      assert CompletedOf(bookings[id := b'], m) == CompletedOf(bookings, m);
      if mentors[m].lastSessionAt.Some? {
        var k :| k in CompletedOf(bookings, m) && bookings[k].end == mentors[m].lastSessionAt.value;
        assert k in CompletedOf(bookings[id := b'], m) && bookings[id := b'][k].end == bookings[k].end;
      }
    }
  }

  /** Completing a booking that was not completed, together with its `recordCompletedSession`. */
  lemma CompleteKeepsStats(s: State, id: Id)
    requires StatsExact(s.bookings, s.mentors)
    requires id in s.bookings && s.bookings[id].status != Completed
    ensures StatsExact(Complete(s, id).bookings, Complete(s, id).mentors)
  {
    var b := s.bookings[id];
    var s' := Complete(s, id);
    forall m | m in s'.mentors
      ensures s'.mentors[m].totalSessions == |CompletedOf(s'.bookings, m)|
      ensures IsLatestEnd(s'.bookings, m, s'.mentors[m].lastSessionAt)
    {
      CompletedAfter(s, id, m);
      if m != b.mentorId && s.mentors[m].lastSessionAt.Some? {
        var k :| k in CompletedOf(s.bookings, m) && s.bookings[k].end == s.mentors[m].lastSessionAt.value;
        assert k in CompletedOf(s'.bookings, m) && s'.bookings[k].end == s.bookings[k].end;
      } else if m == b.mentorId {
        LatestAfter(s, id);
      }
    }
  }

  lemma CompletedAfter(s: State, id: Id, m: Id)
    requires id in s.bookings && s.bookings[id].status != Completed
    ensures CompletedOf(Complete(s, id).bookings, m)
         == CompletedOf(s.bookings, m) + if m == s.bookings[id].mentorId then {id} else {}
    ensures id !in CompletedOf(s.bookings, m)
  {
  }

  lemma LatestAfter(s: State, id: Id)
    requires id in s.bookings && s.bookings[id].status != Completed
    requires var m := s.bookings[id].mentorId;
             m in s.mentors && IsLatestEnd(s.bookings, m, s.mentors[m].lastSessionAt)
    ensures var m := s.bookings[id].mentorId;
            IsLatestEnd(Complete(s, id).bookings, m, Complete(s, id).mentors[m].lastSessionAt)
  {
    var b, s' := s.bookings[id], Complete(s, id);
    var m := b.mentorId;
    var before, after := s.mentors[m].lastSessionAt, s'.mentors[m].lastSessionAt;
    CompletedAfter(s, id, m);
    if before.Some? && before.value > b.end {
      var k :| k in CompletedOf(s.bookings, m) && s.bookings[k].end == before.value;
      assert k in CompletedOf(s'.bookings, m) && s'.bookings[k].end == after.value;
    } else {
      assert id in CompletedOf(s'.bookings, m) && s'.bookings[id].end == after.value;
    }
  }

  /** Statistics look at two fields of a mentor only. */
  lemma SameStats(bookings: map<Id, Booking>, mentors: map<Id, Mentor>, mentors': map<Id, Mentor>)
    requires StatsExact(bookings, mentors) && mentors'.Keys == mentors.Keys
    requires forall m :: m in mentors ==>
               && mentors'[m].totalSessions == mentors[m].totalSessions
               && mentors'[m].lastSessionAt == mentors[m].lastSessionAt
    ensures StatsExact(bookings, mentors')
  {
  }

  lemma PayOrRefundKeepsStats(s: State, id: Id, b: Booking)
    requires StatsExact(s.bookings, s.mentors)
    ensures StatsExact(PayOrRefund(s, id, b).state.bookings, PayOrRefund(s, id, b).state.mentors)
  {
    if b.mentorUserId.Some? && !MentorJoined(b) {
      var noted := RecordNoShow(s, b.mentorUserId.value).0;
      assert PayOrRefund(s, id, b).state.mentors == noted.mentors;
      SameStats(s.bookings, s.mentors, noted.mentors);
    }
  }

  lemma SettleKeepsStats(s: State, id: Id, now: int)
    requires StatsExact(s.bookings, s.mentors)
    ensures StatsExact(Settle(s, id, now).0.bookings, Settle(s, id, now).0.mentors)
  {
    if id in s.bookings && s.bookings[id].settledAt.None? {
      var b := s.bookings[id];
      if b.paymentStatus != Paid {
        PutSameSession(s.bookings, s.mentors, id, b.(settledAt := Some(now)));
      } else {
        if b.status == Started {
          CompleteKeepsStats(s, id);
        }
        var completed := if b.status == Started then Complete(s, id) else s;
        PayOrRefundKeepsStats(completed, id, b);
        var paid := PayOrRefund(completed, id, b);
        PutSameSession(paid.state.bookings, paid.state.mentors, id, paid.state.bookings[id].(settledAt := Some(now)));
      }
    }
  }

  /** A step that writes one booking, which stays or becomes no completed session. */
  lemma WriteKeepsStats(s: State, s': State, id: Id)
    requires StatsExact(s.bookings, s.mentors) && s'.mentors == s.mentors
    requires id in s'.bookings && s'.bookings == s.bookings[id := s'.bookings[id]]
    requires if id in s.bookings then SameSession(s.bookings[id], s'.bookings[id])
             else s'.bookings[id].status != Completed
    ensures StatsExact(s'.bookings, s'.mentors)
  {
    PutSameSession(s.bookings, s.mentors, id, s'.bookings[id]);
  }

  lemma CreateKeepsStats(s: State, id: Id, i: CreateInput, now: int)
    requires StatsExact(s.bookings, s.mentors) && id !in s.bookings
    ensures StatsExact(Create(s, id, i, now).0.bookings, Create(s, id, i, now).0.mentors)
  {
    CreateAddsOne(s, id, i, now);
    if Create(s, id, i, now).1.Done? {
      WriteKeepsStats(s, Create(s, id, i, now).0, id);
    }
  }

  lemma CancelKeepsStats(s: State, id: Id, user: Id, byMentor: bool, now: int)
    requires StatsExact(s.bookings, s.mentors)
    ensures StatsExact(Cancel(s, id, user, byMentor, now).0.bookings, Cancel(s, id, user, byMentor, now).0.mentors)
  {
    if !Cancel(s, id, user, byMentor, now).1.Rejected? {
      WriteKeepsStats(s, Cancel(s, id, user, byMentor, now).0, id);
    }
  }

  lemma StepKeepsStats(s: State, op: Op)
    requires StatsExact(s.bookings, s.mentors)
    ensures StatsExact(Step(s, op).bookings, Step(s, op).mentors)
  {
    match op
    case TopUp(_, _) =>
    case CreateOp(id, i, now) =>
      if id !in s.bookings {
        CreateKeepsStats(s, id, i, now);
      }
    case RescheduleOp(id, user, newStart, newEnd, now, rules) =>
      if Perform(s, op).1.Done? {
        WriteKeepsStats(s, Step(s, op), id);
      }
    case CancelOp(id, user, byMentor, now) =>
      CancelKeepsStats(s, id, user, byMentor, now);
    case JoinOp(id, user, now) =>
      if Perform(s, op).1.Done? {
        WriteKeepsStats(s, Step(s, op), id);
      }
    case TerminateOp(id, user, now) =>
      if Perform(s, op).1.Done? && s.bookings[id].status != Completed {
        CompleteKeepsStats(s, id);
      }
    case SettleOp(id, now) =>
      SettleKeepsStats(s, id, now);
  }

  /** COMPLETED is absorbing: no step takes it back, or moves the session. */
  lemma CompletedStays(s: State, op: Op, id: Id)
    requires id in s.bookings && s.bookings[id].status == Completed
    ensures id in Step(s, op).bookings && Step(s, op).bookings[id].status == Completed
    ensures Step(s, op).bookings[id].start == s.bookings[id].start && Step(s, op).bookings[id].end == s.bookings[id].end
  {
    match op
    case CancelOp(cancelled, user, byMentor, now) => CancelKeepsCompleted(s, cancelled, user, byMentor, now, id);
    case SettleOp(settled, now) => SettleKeepsCompleted(s, settled, now, id);
    case CreateOp(created, i, now) => CreateAddsOne(s, created, i, now);
    case _ =>
  }

  lemma CancelKeepsCompleted(s: State, cancelled: Id, user: Id, byMentor: bool, now: int, id: Id)
    requires id in s.bookings && s.bookings[id].status == Completed
    ensures var bookings := Cancel(s, cancelled, user, byMentor, now).0.bookings;
            id in bookings && bookings[id] == s.bookings[id]
  {
  }

  lemma SettleKeepsCompleted(s: State, settled: Id, now: int, id: Id)
    requires id in s.bookings && s.bookings[id].status == Completed
    ensures var bookings := Settle(s, settled, now).0.bookings;
            && id in bookings && bookings[id].status == Completed
            && bookings[id].start == s.bookings[id].start && bookings[id].end == s.bookings[id].end
  {
  }

  /** Over any run the incremental statistics are the ones the backfill script would compute. */
  lemma {:induction false} RunStatsExact(s: State, ops: seq<Op>)
    requires Initial(s)
    ensures StatsExact(Run(s, ops).bookings, Run(s, ops).mentors)
  {
    if ops == [] {
      assert forall m :: CompletedOf(s.bookings, m) == {};
    } else {
      RunStatsExact(s, ops[..|ops| - 1]);
      StepKeepsStats(Run(s, ops[..|ops| - 1]), ops[|ops| - 1]);
    }
  }
}
