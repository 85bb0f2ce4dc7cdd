/** References and amounts of the stored state stay in order over every run. */
module Soundness {
  import opened Money
  import opened Bookings

  /** Amounts are not negative, and the users a settlement has to credit exist. */
  predicate BookingSound(b: Booking, users: set<Id>) {
    && b.total >= 0.0
    && (b.mentorUserId.Some? ==> b.mentorUserId.value in users)
    && (b.paymentStatus == Paid ==> b.paymentType == Coins && b.menteeId in users)
  }

  ghost predicate BookingsSound(bookings: map<Id, Booking>, users: set<Id>) {
    forall id :: id in bookings ==> BookingSound(bookings[id], users)
  }

  ghost predicate Sound(s: State) {
    MentorsWellFormed(s) && BookingsSound(s.bookings, s.coins.Keys)
  }

  /** What a step may not change about users and mentors. */
  ghost predicate SamePeople(s: State, s': State) {
    && s'.coins.Keys == s.coins.Keys && s'.mentorOf == s.mentorOf && s'.mentors.Keys == s.mentors.Keys
    && forall m :: m in s.mentors ==>
         s'.mentors[m].userId == s.mentors[m].userId && s'.mentors[m].pricePer30Min == s.mentors[m].pricePer30Min
  }

  lemma SamePeopleSound(s: State, s': State)
    requires MentorsWellFormed(s) && SamePeople(s, s')
    ensures MentorsWellFormed(s')
  {
  }

  lemma SamePeopleTransitive(a: State, b: State, c: State)
    requires SamePeople(a, b) && SamePeople(b, c)
    ensures SamePeople(a, c)
  {
  }

  lemma CreditMentorSamePeople(s: State, id: Id, user: Id, mentorCoins: int, payoutMinor: int)
    ensures SamePeople(s, CreditMentor(s, id, user, mentorCoins, payoutMinor).state)
  {
  }

  lemma IssueRefundSamePeople(s: State, id: Id, user: Id, refundCoins: int, refundMinor: int)
    ensures SamePeople(s, IssueRefund(s, id, user, refundCoins, refundMinor).state)
  {
  }

  lemma PayOrRefundSamePeople(s: State, id: Id, b: Booking)
    ensures SamePeople(s, PayOrRefund(s, id, b).state)
  {
    var a := Calculate(b.paymentType, b.total);
    if b.mentorUserId.Some? {
      var u := b.mentorUserId.value;
      if MentorJoined(b) {
        CreditMentorSamePeople(s, id, u, a.mentorCoins, a.mentorPayoutMinor);
      } else {
        var noted := RecordNoShow(s, u).0;
        var stopped := noted.(blocked := noted.blocked + {u});
        IssueRefundSamePeople(stopped, id, b.menteeId, a.refundCoins, a.refundMinor);
        assert SamePeople(s, noted) && SamePeople(s, stopped);
        SamePeopleTransitive(s, stopped, IssueRefund(stopped, id, b.menteeId, a.refundCoins, a.refundMinor).state);
      }
    }
  }

  lemma SettleSamePeople(s: State, id: Id, now: int)
    ensures SamePeople(s, Settle(s, id, now).0)
  {
    if NeedsSettlement(s, id) {
      var b := s.bookings[id];
      var completed := if b.status == Started then Complete(s, id) else s;
      assert SamePeople(s, completed);
      PayOrRefundSamePeople(completed, id, b);
      SamePeopleTransitive(s, completed, PayOrRefund(completed, id, b).state);
    }
  }

  lemma CancelSamePeople(s: State, id: Id, user: Id, byMentor: bool, now: int)
    ensures SamePeople(s, Cancel(s, id, user, byMentor, now).0)
  {
    if !Cancel(s, id, user, byMentor, now).1.Rejected? {
      var b := s.bookings[id];
      var marked := PutBooking(s, id, b.(status := if byMentor then CancelledByMentor else CancelledByMentee));
      var due := RefundDue(b, byMentor, now);
      var minor := RefundToMinor(due);
      IssueRefundSamePeople(marked, id, b.menteeId,
                            if b.paymentType == Stripe then Round(minor as real / 100.0 * COIN_VALUE) else due, minor);
    }
  }

  lemma CreateSamePeople(s: State, id: Id, i: CreateInput, now: int)
    ensures SamePeople(s, Create(s, id, i, now).0)
  {
  }

  lemma StepSamePeople(s: State, op: Op)
    ensures SamePeople(s, Step(s, op))
  {
    match op
    case TopUp(_, _) =>
    case CreateOp(id, i, now) =>
      CreateSamePeople(s, id, i, now);
    case RescheduleOp(_, _, _, _, _, _) =>
    case CancelOp(id, user, byMentor, now) =>
      CancelSamePeople(s, id, user, byMentor, now);
    case JoinOp(_, _, _) =>
    case TerminateOp(_, _, _) =>
    case SettleOp(id, now) =>
      SettleSamePeople(s, id, now);
  }

  /** The fields of a booking that soundness looks at are fixed when it is created. */
  predicate SameContract(b: Booking, b': Booking) {
    && b'.total == b.total && b'.mentorUserId == b.mentorUserId && b'.menteeId == b.menteeId
    && b'.paymentStatus == b.paymentStatus && b'.paymentType == b.paymentType && b'.mentorId == b.mentorId
  }

  /** A settlement time, once set, stays. */
  predicate KeepsSettlement(b: Booking, b': Booking) {
    b.settledAt.Some? ==> b'.settledAt == b.settledAt
  }

  /** Bookings are never removed, and all but new ones keep their contract. */
  lemma StepSameContracts(s: State, op: Op, id: Id)
    requires id in s.bookings
    ensures id in Step(s, op).bookings && SameContract(s.bookings[id], Step(s, op).bookings[id])
    ensures KeepsSettlement(s.bookings[id], Step(s, op).bookings[id])
  {
    if op.SettleOp? {
      SettleSameContracts(s, op.id, op.now, id);
    } else if op.CancelOp? {
      CancelSameContracts(s, op.id, op.user, op.byMentor, op.now, id);
    } else if op.CreateOp? && op.id !in s.bookings {
      CreateAddsOne(s, op.id, op.input, op.now);
    }
  }

  lemma CancelSameContracts(s: State, cancelled: Id, user: Id, byMentor: bool, now: int, id: Id)
    requires id in s.bookings
    ensures var bookings := Cancel(s, cancelled, user, byMentor, now).0.bookings;
            id in bookings && SameContract(s.bookings[id], bookings[id]) && KeepsSettlement(s.bookings[id], bookings[id])
  {
  }

  lemma SettleSameContracts(s: State, settled: Id, now: int, id: Id)
    requires id in s.bookings
    ensures var bookings := Settle(s, settled, now).0.bookings;
            id in bookings && SameContract(s.bookings[id], bookings[id]) && KeepsSettlement(s.bookings[id], bookings[id])
  {
    if NeedsSettlement(s, settled) {
      var b := s.bookings[settled];
      var completed := if b.status == Started then Complete(s, settled) else s;
      assert completed.bookings
          == if b.status == Started then s.bookings[settled := b.(status := Completed)] else s.bookings;
      assert PayOrRefund(completed, settled, b).state.bookings == completed.bookings;
    }
  }

  /** Cancelled or started, and so beyond cancelling and rescheduling. */
  predicate Past(b: Booking) {
    IsCancelled(b.status) || b.status == Started || b.status == Completed
  }

  /** No step takes a booking back to PENDING or CONFIRMED. */
  lemma PastStays(s: State, op: Op, id: Id)
    requires id in s.bookings && Past(s.bookings[id])
    ensures id in Step(s, op).bookings && Past(Step(s, op).bookings[id])
  {
    if op.SettleOp? {
      SettleStaysPast(s, op.id, op.now, id);
    } else if op.CancelOp? {
      CancelMakesPast(s, op.id, op.user, op.byMentor, op.now, id);
    } else if op.CreateOp? && op.id !in s.bookings {
      CreateAddsOne(s, op.id, op.input, op.now);
    }
  }

  lemma SettleStaysPast(s: State, settled: Id, now: int, id: Id)
    requires id in s.bookings && Past(s.bookings[id])
    ensures id in Settle(s, settled, now).0.bookings && Past(Settle(s, settled, now).0.bookings[id])
  {
    if NeedsSettlement(s, settled) {
      var b := s.bookings[settled];
      var completed := if b.status == Started then Complete(s, settled) else s;
      assert completed.bookings
          == if b.status == Started then s.bookings[settled := b.(status := Completed)] else s.bookings;
      assert PayOrRefund(completed, settled, b).state.bookings == completed.bookings;
    }
  }

  lemma CancelMakesPast(s: State, cancelled: Id, user: Id, byMentor: bool, now: int, id: Id)
    requires id in s.bookings
    ensures var (s', result) := Cancel(s, cancelled, user, byMentor, now);
            && id in s'.bookings
            && (Past(s.bookings[id]) || (cancelled == id && !result.Rejected?) ==> Past(s'.bookings[id]))
            && (cancelled == id && !result.Rejected? ==> !Past(s.bookings[id]))
  {
  }

  /** A booking that a step adds comes from a creation. */
  lemma StepNewBooking(s: State, op: Op, id: Id)
    requires id !in s.bookings && id in Step(s, op).bookings
    ensures op.CreateOp? && op.id == id && Create(s, id, op.input, op.now).1.Done?
    ensures Step(s, op).bookings[id] == NewBooking(s.mentors[op.input.mentorId], op.input)
  {
    match op
    case TopUp(_, _) =>
    case CreateOp(new', i, now) => CreateAddsOne(s, new', i, now);
    case RescheduleOp(_, _, _, _, _, _) =>
    case CancelOp(cancelled, user, byMentor, now) => CancelAddsNone(s, cancelled, user, byMentor, now);
    case JoinOp(_, _, _) =>
    case TerminateOp(_, _, _) =>
    case SettleOp(settled, now) => SettleAddsNone(s, settled, now);
  }

  lemma CreateAddsOne(s: State, id: Id, i: CreateInput, now: int)
    ensures Create(s, id, i, now).1.Done? ==>
              Create(s, id, i, now).0.bookings == s.bookings[id := NewBooking(s.mentors[i.mentorId], i)]
    ensures Create(s, id, i, now).0.mentors == s.mentors
    ensures !Create(s, id, i, now).1.Done? ==> Create(s, id, i, now).0.bookings == s.bookings
  {
  }

  lemma CancelAddsNone(s: State, cancelled: Id, user: Id, byMentor: bool, now: int)
    ensures Cancel(s, cancelled, user, byMentor, now).0.bookings.Keys == s.bookings.Keys
  {
  }

  lemma SettleAddsNone(s: State, settled: Id, now: int)
    ensures Settle(s, settled, now).0.bookings.Keys == s.bookings.Keys
  {
  }

  lemma NewBookingSound(s: State, id: Id, i: CreateInput, now: int)
    requires MentorsWellFormed(s) && Create(s, id, i, now).1.Done?
    ensures BookingSound(NewBooking(s.mentors[i.mentorId], i), s.coins.Keys)
  {
    var price := PriceOf(s.mentors[i.mentorId]);
    var minutes := (i.end.value - i.start.value) as real / 60_000.0;
    assert minutes >= 0.0 && minutes / 30.0 >= 0.0;
    assert minutes / 30.0 * price >= 0.0;
  }

  lemma StepSound(s: State, op: Op)
    requires Sound(s)
    ensures Sound(Step(s, op))
  {
    var s' := Step(s, op);
    StepSamePeople(s, op);
    SamePeopleSound(s, s');
    forall id | id in s'.bookings
      ensures BookingSound(s'.bookings[id], s'.coins.Keys)
    {
      if id in s.bookings {
        StepSameContracts(s, op, id);
      } else {
        StepNewBooking(s, op, id);
        NewBookingSound(s, id, op.input, op.now);
      }
    }
  }

  lemma {:induction false} RunSound(s: State, ops: seq<Op>)
    requires Initial(s)
    ensures Sound(Run(s, ops))
  {
    if ops != [] {
      RunSound(s, ops[..|ops| - 1]);
      StepSound(Run(s, ops[..|ops| - 1]), ops[|ops| - 1]);
    }
  }

  /** A settlement time, once set, is never changed or cleared by any step. */
  lemma SettledStays(s: State, op: Op, id: Id)
    requires id in s.bookings && s.bookings[id].settledAt.Some?
    ensures id in Step(s, op).bookings && Step(s, op).bookings[id].settledAt == s.bookings[id].settledAt
  {
    StepSameContracts(s, op, id);
  }
}
