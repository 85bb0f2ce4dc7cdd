/**
  The difference between the platform's rows and its balance, accounted for step by step
  over every run.  A step changes it when it moves the balance without a row: a refund that
  finds a row of its booking already there, or a movement that the wallet does not cover.
  The wallet is likewise compared with the money of unsettled sessions.
 */
module LedgerGap {
  import opened Money
  import opened Bookings
  import opened Soundness
  import opened PlatformLedger
  import opened Solvency
  import opened SettlementOnce

  // ---- which steps crash --------------------------------------------------------------------

  /** The creation takes coins: it passes all checks and the mentee can pay. */
  predicate Collects(s: State, op: Op) {
    && op.CreateOp? && op.id !in s.bookings && op.input.paymentType == Coins
    && CreateError(s, op.input, op.now).None?
    && DebitError(s, op.input.menteeId, PriceTotal(s, op.input)).None?
  }

  function PriceTotal(s: State, i: CreateInput): real
    requires i.mentorId in s.mentors && i.start.Some? && i.end.Some?
  {
    NewBooking(s.mentors[i.mentorId], i).total
  }

  /** The balance stays non-negative where the step moves it. */
  predicate Covered(s: State, op: Op) {
    match op
    case SettleOp(id, _) => CoversSettlement(s, id)
    case CancelOp(id, _, byMentor, now) =>
      ReturnsCoins(s, op) ==> s.platform >= RefundToMinor(RefundDue(s.bookings[id], byMentor, now))
    case CreateOp(_, i, _) =>
      Collects(s, op) ==> CollectedMinor(PriceTotal(s, i)) <= 0 || s.platform + CollectedMinor(PriceTotal(s, i)) >= 0
    case _ => true
  }

  lemma CreateCrashesExactly(s: State, id: Id, i: CreateInput, now: int)
    requires id !in s.bookings
    ensures Create(s, id, i, now).1.Crashed? <==> !Covered(s, CreateOp(id, i, now))
  {
  }

  lemma CancelCrashesExactly(s: State, id: Id, user: Id, byMentor: bool, now: int)
    requires Sound(s)
    ensures Cancel(s, id, user, byMentor, now).1.Crashed? <==> !Covered(s, CancelOp(id, user, byMentor, now))
  {
    if CancelError(s, id, user, byMentor).None? {
      StripeRefundCoins(RefundDue(s.bookings[id], byMentor, now));
      RefundToMinorExact(RefundDue(s.bookings[id], byMentor, now));
    }
  }

  /** A step crashes if and only if the balance before it does not cover what it moves. */
  lemma StepCrashesExactly(s: State, op: Op)
    requires Sound(s)
    ensures Perform(s, op).1.Crashed? <==> !Covered(s, op)
  {
    match op
    case CreateOp(id, i, now) =>
      if id !in s.bookings {
        CreateCrashesExactly(s, id, i, now);
      }
    case CancelOp(id, user, byMentor, now) => CancelCrashesExactly(s, id, user, byMentor, now);
    case SettleOp(id, now) => SettleCrashesExactly(s, id, now);
    case _ =>
  }

  ghost predicate AlwaysCovered(s: State, ops: seq<Op>) {
    ops == [] ||
    (AlwaysCovered(s, ops[..|ops| - 1]) && Covered(Run(s, ops[..|ops| - 1]), ops[|ops| - 1]))
  }

  lemma {:induction false} CrashFreeExactly(s: State, ops: seq<Op>)
    requires Initial(s)
    ensures CrashFree(s, ops) <==> AlwaysCovered(s, ops)
  {
    if ops != [] {
      CrashFreeExactly(s, ops[..|ops| - 1]);
      RunSound(s, ops[..|ops| - 1]);
      StepCrashesExactly(Run(s, ops[..|ops| - 1]), ops[|ops| - 1]);
    }
  }

  // ---- rows and balance ------------------------------------------------------------------------

  function Gap(s: State): int {
    SumRows(s.rows) - s.platform
  }

  /** The operation gets to return coins: a cancellation that is due a refund, or a second no-show. */
  predicate RefundIssued(s: State, op: Op) {
    match op
    case CancelOp(_, _, _, _) => ReturnsCoins(s, op)
    case SettleOp(id, _) =>
      && NeedsSettlement(s, id)
      && s.bookings[id].mentorUserId.Some? && !MentorJoined(s.bookings[id])
      && RecordNoShow(s, s.bookings[id].mentorUserId.value).1 >= 2
      && Calculate(s.bookings[id].paymentType, s.bookings[id].total).refundCoins > 0
    case _ => false
  }

  function RefundMinor(s: State, op: Op): int
    requires RefundIssued(s, op)
  {
    match op
    case CancelOp(id, _, byMentor, now) => RefundToMinor(RefundDue(s.bookings[id], byMentor, now))
    case SettleOp(id, _) => Calculate(s.bookings[id].paymentType, s.bookings[id].total).refundMinor
  }

  /** The step moves the balance without writing a row. */
  predicate Unbooked(s: State, op: Op) {
    if RefundIssued(s, op) then HasRefundRow(s, op.id) else (op.SettleOp? || op.CreateOp?) && !Covered(s, op)
  }

  /** By how much. */
  function Unrecorded(s: State, op: Op): int {
    if !Unbooked(s, op) then 0
    else if RefundIssued(s, op) then RefundMinor(s, op)
    else if op.SettleOp? then Withdrawal(s, s.bookings[op.id])
    else -CollectedMinor(PriceTotal(s, op.input))
  }

  lemma RefundGap(s: State, id: Id, user: Id, refundCoins: int, refundMinor: int)
    requires user in s.coins && refundCoins > 0 && refundMinor > 0
    ensures var s' := IssueRefund(s, id, user, refundCoins, refundMinor).state;
            Gap(s') == Gap(s) + if HasRefundRow(s, id) then refundMinor else 0
  {
    AppendRow(s.rows, Row(RefundRow, id, -refundMinor));
  }

  lemma PayoutGap(s: State, id: Id, user: Id, mentorCoins: int, payoutMinor: int)
    requires user in s.coins
    ensures var s' := CreditMentor(s, id, user, mentorCoins, payoutMinor).state;
            Gap(s') == Gap(s) + if payoutMinor > 0 && s.platform < payoutMinor then payoutMinor else 0
  {
    AppendRow(s.rows, Row(SessionPayout, id, -payoutMinor));
  }

  lemma CreateGap(s: State, id: Id, i: CreateInput, now: int)
    requires id !in s.bookings
    ensures Gap(Create(s, id, i, now).0) == Gap(s) + Unrecorded(s, CreateOp(id, i, now))
  {
    if Collects(s, CreateOp(id, i, now)) {
      PayWithCoinsGap(s, id, NewBooking(s.mentors[i.mentorId], i));
    }
  }

  lemma PayWithCoinsGap(s: State, id: Id, b: Booking)
    requires DebitError(s, b.menteeId, b.total).None?
    ensures var minor := CollectedMinor(b.total);
            Gap(PayWithCoins(s, id, b).0) == Gap(s) - if minor > 0 && s.platform + minor < 0 then minor else 0
  {
    AppendRow(s.rows, Row(CoinBooking, id, CollectedMinor(b.total)));
  }

  lemma CancelGap(s: State, id: Id, user: Id, byMentor: bool, now: int)
    requires Sound(s)
    ensures Gap(Cancel(s, id, user, byMentor, now).0) == Gap(s) + Unrecorded(s, CancelOp(id, user, byMentor, now))
  {
    if ReturnsCoins(s, CancelOp(id, user, byMentor, now)) {
      var b := s.bookings[id];
      var due := RefundDue(b, byMentor, now);
      StripeRefundCoins(due);
      RefundToMinorExact(due);
      var marked := PutBooking(s, id, b.(status := if byMentor then CancelledByMentor else CancelledByMentee));
      RefundGap(marked, id, b.menteeId, due, RefundToMinor(due));
    }
  }

  /** What the money part of a settlement moves without a row. */
  function PaymentUnrecorded(s: State, id: Id, b: Booking): int {
    var a := Calculate(b.paymentType, b.total);
    if b.mentorUserId.None? then 0
    else if MentorJoined(b) then
      (if a.mentorPayoutMinor > 0 && s.platform < a.mentorPayoutMinor then a.mentorPayoutMinor else 0)
    else if RecordNoShow(s, b.mentorUserId.value).1 >= 2 && a.refundCoins > 0 && HasRefundRow(s, id) then a.refundMinor
    else 0
  }

  lemma PayOrRefundGap(s: State, id: Id, b: Booking)
    requires b.paymentStatus == Paid && BookingSound(b, s.coins.Keys)
    ensures Gap(PayOrRefund(s, id, b).state) == Gap(s) + PaymentUnrecorded(s, id, b)
  {
    var a := Calculate(b.paymentType, b.total);
    if b.mentorUserId.Some? {
      var u := b.mentorUserId.value;
      if MentorJoined(b) {
        PayoutGap(s, id, u, a.mentorCoins, a.mentorPayoutMinor);
      } else if RecordNoShow(s, u).1 >= 2 && a.refundCoins > 0 {
        RefundMinorPositive(b.paymentType, b.total);
        var noted := RecordNoShow(s, u).0;
        RefundGap(noted.(blocked := noted.blocked + {u}), id, b.menteeId, a.refundCoins, a.refundMinor);
      }
    }
  }

  lemma UnrecordedOfSettlement(s: State, id: Id, now: int)
    requires Sound(s) && NeedsSettlement(s, id)
    ensures Unrecorded(s, SettleOp(id, now)) == PaymentUnrecorded(s, id, s.bookings[id])
  {
    PayOrRefundExactly(s, id, s.bookings[id]);
  }

  lemma SettleGap(s: State, id: Id, now: int)
    requires Sound(s)
    ensures Gap(Settle(s, id, now).0) == Gap(s) + Unrecorded(s, SettleOp(id, now))
  {
    if NeedsSettlement(s, id) {
      var b := s.bookings[id];
      var completed := if b.status == Started then Complete(s, id) else s;
      UnrecordedOfSettlement(s, id, now);
      PayOrRefundGap(completed, id, b);
      assert PaymentUnrecorded(completed, id, b) == PaymentUnrecorded(s, id, b);
    }
  }

  lemma StepGap(s: State, op: Op)
    requires Sound(s)
    ensures Gap(Step(s, op)) == Gap(s) + Unrecorded(s, op)
  {
    match op
    case CreateOp(id, i, now) =>
      if id !in s.bookings {
        CreateGap(s, id, i, now);
      }
    case CancelOp(id, user, byMentor, now) => CancelGap(s, id, user, byMentor, now);
    case SettleOp(id, now) => SettleGap(s, id, now);
    case _ =>
  }

  lemma UnrecordedExactly(s: State, op: Op)
    requires Sound(s)
    ensures Unrecorded(s, op) != 0 <==> Unbooked(s, op)
    ensures Covered(s, op) ==> Unrecorded(s, op) >= 0
  {
    if RefundIssued(s, op) {
      if op.SettleOp? {
        RefundMinorPositive(s.bookings[op.id].paymentType, s.bookings[op.id].total);
      } else {
        RefundToMinorExact(RefundDue(s.bookings[op.id], op.byMentor, op.now));
      }
    } else if op.SettleOp? && NeedsSettlement(s, op.id) {
      PayOrRefundExactly(s, op.id, s.bookings[op.id]);
    }
  }

  /**
    A step keeps the difference between rows and balance if and only if it does not repeat a
    refund that has a row already, and the wallet covers what it pays out or collects.
   */
  lemma StepKeepsLedgerExactly(s: State, op: Op)
    requires Sound(s)
    ensures Gap(Step(s, op)) == Gap(s) <==> !Unbooked(s, op)
  {
    StepGap(s, op);
    UnrecordedExactly(s, op);
  }

  ghost function TotalUnrecorded(s: State, ops: seq<Op>): int {
    if ops == [] then 0
    else TotalUnrecorded(s, ops[..|ops| - 1]) + Unrecorded(Run(s, ops[..|ops| - 1]), ops[|ops| - 1])
  }

  /** Over every run, crashes and cancellations included: rows = balance + what was moved without a row. */
  lemma {:induction false} RunGapExactly(s: State, ops: seq<Op>)
    requires Initial(s)
    ensures SumRows(Run(s, ops).rows) == Run(s, ops).platform + TotalUnrecorded(s, ops)
  {
    if ops != [] {
      RunGapExactly(s, ops[..|ops| - 1]);
      RunSound(s, ops[..|ops| - 1]);
      StepGap(Run(s, ops[..|ops| - 1]), ops[|ops| - 1]);
    }
  }

  /** No step of the run repeats a refund that has a row already. */
  ghost predicate NeverRepeatsRefund(s: State, ops: seq<Op>) {
    ops == [] ||
    (var before, op := Run(s, ops[..|ops| - 1]), ops[|ops| - 1];
     NeverRepeatsRefund(s, ops[..|ops| - 1]) && !(RefundIssued(before, op) && HasRefundRow(before, op.id)))
  }

  lemma {:induction false} UnrecordedInRun(s: State, ops: seq<Op>)
    requires Initial(s) && AlwaysCovered(s, ops)
    ensures TotalUnrecorded(s, ops) >= 0
    ensures TotalUnrecorded(s, ops) == 0 <==> NeverRepeatsRefund(s, ops)
  {
    if ops != [] {
      UnrecordedInRun(s, ops[..|ops| - 1]);
      RunSound(s, ops[..|ops| - 1]);
      UnrecordedExactly(Run(s, ops[..|ops| - 1]), ops[|ops| - 1]);
    }
  }

  /**
    Over any run whose steps the wallet covers, the platform's rows sum up to its balance if
    and only if no step repeated a refund, which is to say that no booking was refunded twice.
   */
  lemma RunLedgerExactly(s: State, ops: seq<Op>)
    requires Initial(s) && AlwaysCovered(s, ops)
    ensures SumRows(Run(s, ops).rows) >= Run(s, ops).platform
    ensures SumRows(Run(s, ops).rows) == Run(s, ops).platform <==> NeverRepeatsRefund(s, ops)
    ensures NeverRepeatsRefund(s, ops) <==> RefundedAtMostOnce(Run(s, ops).coinTxs)
  {
    RunGapExactly(s, ops);
    UnrecordedInRun(s, ops);
    CrashFreeExactly(s, ops);
    RunPlatformInv(s, ops);
  }

  /** A run in which no cancellation returns coins is covered and repeats no refund. */
  lemma LedgerExactWithoutRefunds(s: State, ops: seq<Op>)
    requires Initial(s) && NoCoinsReturned(s, ops)
    ensures SumRows(Run(s, ops).rows) == Run(s, ops).platform
  {
    SolventWithoutRefunds(s, ops);
    CrashFreeExactly(s, ops);
    RunLedgerExactly(s, ops);
    forall id
      ensures RefundsOf(Run(s, ops).coinTxs, id) <= 1
    {
      CoveredSettlements(s, ops, id);
      NoneReturnedNotRefunded(s, ops, id);
      EarningOrRefundNeverBothExactly(s, ops, id);
      RefundsAreCredits(Run(s, ops).coinTxs, id);
    }
  }

  lemma {:induction false} CoveredSettlements(s: State, ops: seq<Op>, id: Id)
    requires AlwaysCovered(s, ops)
    ensures SettlementsCovered(s, ops, id)
  {
    if ops != [] {
      CoveredSettlements(s, ops[..|ops| - 1], id);
    }
  }

  lemma {:induction false} NoneReturnedNotRefunded(s: State, ops: seq<Op>, id: Id)
    requires NoCoinsReturned(s, ops)
    ensures NotRefunded(s, ops, id)
  {
    if ops != [] {
      NoneReturnedNotRefunded(s, ops[..|ops| - 1], id);
    }
  }

  lemma {:induction false} RefundsAreCredits(txs: seq<CoinTx>, id: Id)
    ensures RefundsOf(txs, id) <= CreditsOf(txs, id)
  {
    if txs != [] {
      RefundsAreCredits(txs[..|txs| - 1], id);
    }
  }

  // ---- obligations ---------------------------------------------------------------------------------

  /** How a step that crashes changes the slack: what it moved is moved, and nothing is settled or booked. */
  function CrashGain(s: State, op: Op): int
    requires !Covered(s, op)
  {
    match op
    case SettleOp(id, _) => -Withdrawal(s, s.bookings[id])
    case CancelOp(_, _, _, _) => -RefundMinor(s, op)
    case CreateOp(_, i, _) => CollectedMinor(PriceTotal(s, i))
  }

  function Gain(s: State, op: Op): int {
    if Covered(s, op) then StepGain(s, op) else CrashGain(s, op)
  }

  lemma CrashedSettleSlack(s: State, id: Id, now: int)
    requires Sound(s) && !CoversSettlement(s, id)
    ensures Slack(Settle(s, id, now).0) == Slack(s) - Withdrawal(s, s.bookings[id])
  {
    var b := s.bookings[id];
    var completed := if b.status == Started then Complete(s, id) else s;
    SettleCrashesExactly(s, id, now);
    CompleteSameWithdrawal(s, id);
    FailedPayment(completed, id, b);
    if b.status == Started {
      OwedPut(s.bookings, id, b.(status := Completed));
    }
  }

  lemma CrashedCancelSlack(s: State, id: Id, user: Id, byMentor: bool, now: int)
    requires Sound(s) && !Covered(s, CancelOp(id, user, byMentor, now))
    ensures Slack(Cancel(s, id, user, byMentor, now).0)
         == Slack(s) - RefundToMinor(RefundDue(s.bookings[id], byMentor, now))
  {
    var b := s.bookings[id];
    StripeRefundCoins(RefundDue(b, byMentor, now));
    RefundToMinorExact(RefundDue(b, byMentor, now));
    OwedPut(s.bookings, id, b.(status := if byMentor then CancelledByMentor else CancelledByMentee));
  }

  lemma CrashedCreateSlack(s: State, id: Id, i: CreateInput, now: int)
    requires !Covered(s, CreateOp(id, i, now))
    ensures Slack(Create(s, id, i, now).0) == Slack(s) + CollectedMinor(PriceTotal(s, i))
  {
  }

  lemma StepSlackAlways(s: State, op: Op)
    requires Sound(s)
    ensures Slack(Step(s, op)) == Slack(s) + Gain(s, op)
  {
    StepCrashesExactly(s, op);
    if Covered(s, op) {
      StepSlack(s, op);
    } else if op.SettleOp? {
      CrashedSettleSlack(s, op.id, op.now);
    } else if op.CancelOp? {
      CrashedCancelSlack(s, op.id, op.user, op.byMentor, op.now);
    } else {
      CrashedCreateSlack(s, op.id, op.input, op.now);
    }
  }

  ghost function TotalGain(s: State, ops: seq<Op>): int {
    if ops == [] then 0
    else TotalGain(s, ops[..|ops| - 1]) + Gain(Run(s, ops[..|ops| - 1]), ops[|ops| - 1])
  }

  /**
    Over every run, crashes and cancellations included, the balance is the money of unsettled
    sessions, plus what settlements released, minus what cancellations and crashes cost.
   */
  lemma {:induction false} RunSlackExactly(s: State, ops: seq<Op>)
    requires Initial(s)
    ensures Run(s, ops).platform == Owed(Run(s, ops).bookings) + TotalGain(s, ops)
  {
    if ops != [] {
      RunSlackExactly(s, ops[..|ops| - 1]);
      RunSound(s, ops[..|ops| - 1]);
      StepSlackAlways(Run(s, ops[..|ops| - 1]), ops[|ops| - 1]);
    }
  }
}
