/**
  Settlement is at most once.  Settling again changes nothing exactly when the wallet
  covered the first settlement, and over a run a booking whose settlements are covered is
  credited by its settlement at most once.  Cancellations refund a booking at most once as
  well, so it yields both an earning and a refund, or two refunds, exactly when a settlement
  of it pays somebody and a cancellation of it returns coins.
 */
module SettlementOnce {
  import opened Wrappers
  import opened Money
  import opened Bookings
  import opened Soundness
  import opened PlatformLedger
  import opened Solvency

  /** The wallet can pay what the settlement of the booking takes. */
  predicate CoversSettlement(s: State, id: Id) {
    NeedsSettlement(s, id) ==>
      Withdrawal(s, s.bookings[id]) == 0 || s.platform >= Withdrawal(s, s.bookings[id])
  }

  lemma SettleCrashesExactly(s: State, id: Id, now: int)
    requires Sound(s)
    ensures Settle(s, id, now).1.Crashed? <==> !CoversSettlement(s, id)
  {
    if NeedsSettlement(s, id) {
      var b := s.bookings[id];
      CompleteSameWithdrawal(s, id);
      PayOrRefundExactly(if b.status == Started then Complete(s, id) else s, id, b);
    }
  }

  /** A failed money part has taken the withdrawal out of the wallet all the same. */
  lemma FailedPayment(s: State, id: Id, b: Booking)
    requires b.paymentStatus == Paid && BookingSound(b, s.coins.Keys)
    requires !PayOrRefund(s, id, b).ok
    ensures PayOrRefund(s, id, b).state.platform == s.platform - Withdrawal(s, b) < 0 < Withdrawal(s, b)
    ensures Withdrawal(PayOrRefund(s, id, b).state, b) == Withdrawal(s, b)
  {
    PayOrRefundExactly(s, id, b);
    var a := Calculate(b.paymentType, b.total);
    if a.refundCoins > 0 {
      RefundMinorPositive(b.paymentType, b.total);
    }
  }

  /** After a crash the booking is still to be settled, and settling it takes the same amount again. */
  lemma CrashedStaysDue(s: State, id: Id, now: int)
    requires Sound(s) && Settle(s, id, now).1.Crashed?
    ensures var s' := Settle(s, id, now).0;
            && NeedsSettlement(s', id) && s'.bookings[id].status != Started
            && s'.platform < 0 < Withdrawal(s', s'.bookings[id])
  {
    var b := s.bookings[id];
    var completed := if b.status == Started then Complete(s, id) else s;
    FailedPayment(completed, id, b);
    var s' := Settle(s, id, now).0;
    assert s'.bookings[id] == if b.status == Started then b.(status := Completed) else b;
    assert Withdrawal(s', s'.bookings[id]) == Withdrawal(s', b);
  }

  /** Settling a second time changes nothing if and only if the wallet covered the first settlement. */
  lemma SettleTwiceExactly(s: State, id: Id, first: int, second: int)
    requires Sound(s)
    ensures Settle(Settle(s, id, first).0, id, second).0 == Settle(s, id, first).0 <==> CoversSettlement(s, id)
  {
    SettleCrashesExactly(s, id, first);
    var s' := Settle(s, id, first).0;
    if Settle(s, id, first).1.Crashed? {
      StepSound(s, SettleOp(id, first));
      CrashedStaysDue(s, id, first);
      var b := s'.bookings[id];
      PayOrRefundExactly(s', id, b);
      FailedPayment(s', id, b);
      assert Settle(s', id, second).0.platform == s'.platform - Withdrawal(s', b);
    } else {
      SettledOrGone(s, id, first);
    }
  }

  lemma SettledOrGone(s: State, id: Id, now: int)
    requires !Settle(s, id, now).1.Crashed?
    ensures id in s.bookings ==>
              id in Settle(s, id, now).0.bookings && Settle(s, id, now).0.bookings[id].settledAt.Some?
    ensures id !in s.bookings ==> Settle(s, id, now).0 == s
  {
  }

  // ---- runs ---------------------------------------------------------------------------------------

  /** Coins credited for the booking: the mentor's earning or a refund. */
  predicate IsCreditOf(tx: CoinTx, id: Id) {
    (tx.kind == SessionEarning || tx.kind == Refund) && tx.booking == Some(id)
  }

  function CreditsOf(txs: seq<CoinTx>, id: Id): nat {
    if txs == [] then 0
    else CreditsOf(txs[..|txs| - 1], id) + if IsCreditOf(txs[|txs| - 1], id) then 1 else 0
  }

  lemma AppendCredit(txs: seq<CoinTx>, tx: CoinTx, id: Id)
    ensures CreditsOf(txs + [tx], id) == CreditsOf(txs, id) + if IsCreditOf(tx, id) then 1 else 0
  {
    assert (txs + [tx])[..|txs|] == txs;
  }

  /** A settlement writes at most one transaction, and it is a credit of that booking. */
  lemma SettleWritesOneCredit(s: State, id: Id, now: int)
    ensures var txs := Settle(s, id, now).0.coinTxs;
            txs == s.coinTxs || (exists tx :: IsCreditOf(tx, id) && txs == s.coinTxs + [tx])
    ensures !NeedsSettlement(s, id) ==> Settle(s, id, now).0.coinTxs == s.coinTxs
  {
    if NeedsSettlement(s, id) {
      var b := s.bookings[id];
      PayOrRefundWritesOneCredit(if b.status == Started then Complete(s, id) else s, id, b);
    }
  }

  lemma PayOrRefundWritesOneCredit(s: State, id: Id, b: Booking)
    ensures var txs := PayOrRefund(s, id, b).state.coinTxs;
            txs == s.coinTxs || (exists tx :: IsCreditOf(tx, id) && txs == s.coinTxs + [tx])
  {
    var a := Calculate(b.paymentType, b.total);
    if b.mentorUserId.Some? {
      var u := b.mentorUserId.value;
      assert IsCreditOf(CoinTx(u, a.mentorCoins as real, SessionEarning, Some(id)), id);
      assert IsCreditOf(CoinTx(b.menteeId, a.refundCoins as real, Refund, Some(id)), id);
    }
  }

  /** How many steps of the run settled the booking and credited somebody for it. */
  ghost function SettlementCredits(s: State, ops: seq<Op>, id: Id): int {
    if ops == [] then 0
    else
      var before, op := Run(s, ops[..|ops| - 1]), ops[|ops| - 1];
      SettlementCredits(s, ops[..|ops| - 1], id)
      + if op.SettleOp? && op.id == id then |Step(before, op).coinTxs| - |before.coinTxs| else 0
  }

  predicate IsSettled(s: State, id: Id) {
    id in s.bookings && s.bookings[id].settledAt.Some?
  }

  /** Whenever the run settles this booking, the wallet covers it. */
  ghost predicate SettlementsCovered(s: State, ops: seq<Op>, id: Id) {
    ops == [] ||
    (var before, op := Run(s, ops[..|ops| - 1]), ops[|ops| - 1];
     SettlementsCovered(s, ops[..|ops| - 1], id) && (op.SettleOp? && op.id == id ==> CoversSettlement(before, id)))
  }

  /**
    Over any run whose settlements of this booking are covered the booking's settlement credits
    at most once, and then it is settled; all other steps are free to crash or to cancel.
   */
  lemma {:induction false} RunSettlesAtMostOnce(s: State, ops: seq<Op>, id: Id)
    requires Initial(s) && SettlementsCovered(s, ops, id)
    ensures 0 <= SettlementCredits(s, ops, id) <= if IsSettled(Run(s, ops), id) then 1 else 0
  {
    if ops != [] {
      var prefix, op := ops[..|ops| - 1], ops[|ops| - 1];
      var before := Run(s, prefix);
      RunSettlesAtMostOnce(s, prefix, id);
      if IsSettled(before, id) {
        SettledStays(before, op, id);
      }
      if op.SettleOp? && op.id == id {
        RunSound(s, prefix);
        SettleCrashesExactly(before, id, op.now);
        SettleWritesOneCredit(before, id, op.now);
        SettledOrGone(before, id, op.now);
      }
    }
  }

  /** Only settlements of the booking, and cancellations of it that return coins, credit coins for it. */
  lemma OtherStepsCreditNothing(s: State, op: Op, id: Id)
    requires !(op.SettleOp? && op.id == id) && !(ReturnsCoins(s, op) && op.id == id)
    ensures CreditsOf(Step(s, op).coinTxs, id) == CreditsOf(s.coinTxs, id)
  {
    match op
    case TopUp(user, amount) =>
      AppendCredit(s.coinTxs, CoinTx(user, amount, Purchase, None), id);
    case CreateOp(created, i, now) =>
      CreateCreditsNothing(s, created, i, now, id);
    case CancelOp(cancelled, user, byMentor, now) =>
      CancelCreditsOwn(s, cancelled, user, byMentor, now, id);
    case SettleOp(settled, now) =>
      SettleWritesOneCredit(s, settled, now);
      if Step(s, op).coinTxs != s.coinTxs {
        var tx :| IsCreditOf(tx, settled) && Step(s, op).coinTxs == s.coinTxs + [tx];
        AppendCredit(s.coinTxs, tx, id);
      }
    case _ =>
  }

  lemma CancelCreditsOwn(s: State, cancelled: Id, user: Id, byMentor: bool, now: int, id: Id)
    requires ReturnsCoins(s, CancelOp(cancelled, user, byMentor, now)) ==> cancelled != id
    ensures CreditsOf(Cancel(s, cancelled, user, byMentor, now).0.coinTxs, id) == CreditsOf(s.coinTxs, id)
  {
    var txs := Cancel(s, cancelled, user, byMentor, now).0.coinTxs;
    if txs != s.coinTxs {
      var tx := txs[|txs| - 1];
      assert txs == s.coinTxs + [tx] && tx.booking == Some(cancelled);
      AppendCredit(s.coinTxs, tx, id);
    }
  }

  lemma CreateCreditsNothing(s: State, created: Id, i: CreateInput, now: int, id: Id)
    ensures CreditsOf(Create(s, created, i, now).0.coinTxs, id) == CreditsOf(s.coinTxs, id)
  {
    if CreateError(s, i, now).None? && i.paymentType == Coins {
      PayCreditsNothing(s, created, NewBooking(s.mentors[i.mentorId], i), id);
    }
  }

  lemma PayCreditsNothing(s: State, created: Id, b: Booking, id: Id)
    ensures CreditsOf(PayWithCoins(s, created, b).0.coinTxs, id) == CreditsOf(s.coinTxs, id)
  {
    AppendCredit(s.coinTxs, CoinTx(b.menteeId, -b.total, SessionSpend, Some(created)), id);
  }

  // ---- settlement and cancellation together ------------------------------------------------------

  /** How often a cancellation of the booking returned coins. */
  ghost function CancelCredits(s: State, ops: seq<Op>, id: Id): nat {
    if ops == [] then 0
    else
      CancelCredits(s, ops[..|ops| - 1], id)
      + if ReturnsCoins(Run(s, ops[..|ops| - 1]), ops[|ops| - 1]) && ops[|ops| - 1].id == id then 1 else 0
  }

  /** A cancellation that returns coins writes one transaction for its booking. */
  lemma CancelCreditsOnce(s: State, op: Op)
    requires Sound(s) && ReturnsCoins(s, op)
    ensures CreditsOf(Step(s, op).coinTxs, op.id) == CreditsOf(s.coinTxs, op.id) + 1
  {
    var b := s.bookings[op.id];
    var due := RefundDue(b, op.byMentor, op.now);
    AppendCredit(s.coinTxs, CoinTx(b.menteeId, due as real, Refund, Some(op.id)), op.id);
  }

  /** Over any run the credits of a booking come from its settlements and its cancellations. */
  lemma {:induction false} RunCreditsExact(s: State, ops: seq<Op>, id: Id)
    requires Initial(s)
    ensures CreditsOf(Run(s, ops).coinTxs, id) == SettlementCredits(s, ops, id) + CancelCredits(s, ops, id)
  {
    if ops != [] {
      var prefix, op := ops[..|ops| - 1], ops[|ops| - 1];
      var before := Run(s, prefix);
      RunCreditsExact(s, prefix, id);
      RunSound(s, prefix);
      if op.SettleOp? && op.id == id {
        SettleWritesOneCredit(before, id, op.now);
        if Step(before, op).coinTxs != before.coinTxs {
          var tx :| IsCreditOf(tx, id) && Step(before, op).coinTxs == before.coinTxs + [tx];
          AppendCredit(before.coinTxs, tx, id);
        }
      } else if ReturnsCoins(before, op) && op.id == id {
        CancelCreditsOnce(before, op);
      } else {
        OtherStepsCreditNothing(before, op, id);
      }
    }
  }

  /** Over any run at most one cancellation of a booking returns coins: the booking never opens again. */
  lemma {:induction false} RunCancelsAtMostOnce(s: State, ops: seq<Op>, id: Id)
    ensures CancelCredits(s, ops, id) <= 1
    ensures CancelCredits(s, ops, id) > 0 ==> id in Run(s, ops).bookings && Past(Run(s, ops).bookings[id])
  {
    if ops != [] {
      var before, op := Run(s, ops[..|ops| - 1]), ops[|ops| - 1];
      RunCancelsAtMostOnce(s, ops[..|ops| - 1], id);
      if ReturnsCoins(before, op) && op.id == id {
        CancelMakesPast(before, op.id, op.user, op.byMentor, op.now, id);
      } else if CancelCredits(s, ops[..|ops| - 1], id) > 0 {
        PastStays(before, op, id);
      }
    }
  }

  /** The settlement credits coins: the joined mentor's share, or the refund from the second no-show on. */
  predicate SettlementPays(s: State, id: Id) {
    && NeedsSettlement(s, id) && s.bookings[id].mentorUserId.Some?
    && (var b, amounts := s.bookings[id], Calculate(s.bookings[id].paymentType, s.bookings[id].total);
        if MentorJoined(b) then amounts.mentorCoins > 0
        else RecordNoShow(s, b.mentorUserId.value).1 >= 2 && amounts.refundCoins > 0)
  }

  lemma SettlementPaysExactly(s: State, id: Id, now: int)
    requires Sound(s)
    ensures |Settle(s, id, now).0.coinTxs| == |s.coinTxs| + if SettlementPays(s, id) then 1 else 0
  {
    if NeedsSettlement(s, id) {
      var b := s.bookings[id];
      PayOrRefundPaysExactly(if b.status == Started then Complete(s, id) else s, id, b);
    }
  }

  lemma PayOrRefundPaysExactly(s: State, id: Id, b: Booking)
    requires b.paymentStatus == Paid && BookingSound(b, s.coins.Keys)
    ensures var amounts := Calculate(b.paymentType, b.total);
            var pays := b.mentorUserId.Some?
                        && if MentorJoined(b) then amounts.mentorCoins > 0
                           else RecordNoShow(s, b.mentorUserId.value).1 >= 2 && amounts.refundCoins > 0;
            |PayOrRefund(s, id, b).state.coinTxs| == |s.coinTxs| + if pays then 1 else 0
  {
  }

  /** No settlement of this booking credits coins. */
  ghost predicate NeverPaid(s: State, ops: seq<Op>, id: Id) {
    ops == [] ||
    (var before, op := Run(s, ops[..|ops| - 1]), ops[|ops| - 1];
     NeverPaid(s, ops[..|ops| - 1], id) && !(op.SettleOp? && op.id == id && SettlementPays(before, id)))
  }

  /** No cancellation of this booking returns coins. */
  ghost predicate NotRefunded(s: State, ops: seq<Op>, id: Id) {
    ops == [] ||
    (var before, op := Run(s, ops[..|ops| - 1]), ops[|ops| - 1];
     NotRefunded(s, ops[..|ops| - 1], id) && !(ReturnsCoins(before, op) && op.id == id))
  }

  /** Both kinds of credit are counted by what each step was about to do. */
  lemma {:induction false} CreditsByGuards(s: State, ops: seq<Op>, id: Id)
    requires Initial(s)
    ensures SettlementCredits(s, ops, id) >= 0
    ensures SettlementCredits(s, ops, id) == 0 <==> NeverPaid(s, ops, id)
    ensures CancelCredits(s, ops, id) == 0 <==> NotRefunded(s, ops, id)
  {
    if ops != [] {
      CreditsByGuards(s, ops[..|ops| - 1], id);
      RunSound(s, ops[..|ops| - 1]);
      if ops[|ops| - 1].SettleOp? {
        SettlementPaysExactly(Run(s, ops[..|ops| - 1]), ops[|ops| - 1].id, ops[|ops| - 1].now);
      }
    }
  }

  /**
    A booking whose settlements are covered is credited at most twice, and it yields at most
    one of {earning, refund} if and only if no settlement of it pays anybody or no
    cancellation of it returns coins.
   */
  lemma EarningOrRefundNeverBothExactly(s: State, ops: seq<Op>, id: Id)
    requires Initial(s) && SettlementsCovered(s, ops, id)
    ensures CreditsOf(Run(s, ops).coinTxs, id) <= 2
    ensures CreditsOf(Run(s, ops).coinTxs, id) <= 1 <==> NeverPaid(s, ops, id) || NotRefunded(s, ops, id)
  {
    RunSettlesAtMostOnce(s, ops, id);
    RunCancelsAtMostOnce(s, ops, id);
    RunCreditsExact(s, ops, id);
    CreditsByGuards(s, ops, id);
  }
}
