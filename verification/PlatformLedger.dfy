/**
  The platform wallet against its ledger, seen from the coins returned: in a run without
  crashes the balance is the sum of the platform's rows as long as no booking is refunded
  twice.
 */
module PlatformLedger {
  import opened Wrappers
  import opened Money
  import opened Bookings

  /** No step of the run was cut short by an exception. */
  ghost predicate CrashFree(s: State, ops: seq<Op>) {
    ops == [] ||
    (CrashFree(s, ops[..|ops| - 1]) && !Perform(Run(s, ops[..|ops| - 1]), ops[|ops| - 1]).1.Crashed?)
  }

  // ---- balance and rows ----------------------------------------------------------------------

  function SumRows(rows: seq<Row>): int {
    if rows == [] then 0 else SumRows(rows[..|rows| - 1]) + rows[|rows| - 1].amount
  }

  predicate IsRefundOf(tx: CoinTx, id: Id) {
    tx.kind == Refund && tx.booking == Some(id)
  }

  /** How often coins were returned for the booking. */
  function RefundsOf(txs: seq<CoinTx>, id: Id): nat {
    if txs == [] then 0
    else RefundsOf(txs[..|txs| - 1], id) + if IsRefundOf(txs[|txs| - 1], id) then 1 else 0
  }

  /** No booking was refunded both by its cancellation and by its settlement. */
  ghost predicate RefundedAtMostOnce(txs: seq<CoinTx>) {
    forall id :: RefundsOf(txs, id) <= 1
  }

  /** A refund row stands for the first refund of its booking; each further refund only moves the balance. */
  ghost predicate LedgerInv(txs: seq<CoinTx>, rows: seq<Row>, platform: int) {
    && (forall id :: (exists r | r in rows :: r.kind == RefundRow && r.booking == id) <==> RefundsOf(txs, id) >= 1)
    && SumRows(rows) >= platform
    && (SumRows(rows) == platform <==> RefundedAtMostOnce(txs))
  }

  ghost predicate PlatformInv(s: State) {
    LedgerInv(s.coinTxs, s.rows, s.platform)
  }

  lemma AppendTx(txs: seq<CoinTx>, tx: CoinTx)
    ensures forall id :: RefundsOf(txs + [tx], id) == RefundsOf(txs, id) + if IsRefundOf(tx, id) then 1 else 0
  {
    assert (txs + [tx])[..|txs|] == txs;
  }

  lemma AppendRow(rows: seq<Row>, row: Row)
    ensures SumRows(rows + [row]) == SumRows(rows) + row.amount
  {
    assert (rows + [row])[..|rows|] == rows;
  }

  /** A transaction that is no refund. */
  lemma OtherTxKeepsInv(txs: seq<CoinTx>, rows: seq<Row>, platform: int, tx: CoinTx)
    requires LedgerInv(txs, rows, platform) && tx.kind != Refund
    ensures LedgerInv(txs + [tx], rows, platform)
  {
    AppendTx(txs, tx);
    assert RefundedAtMostOnce(txs + [tx]) <==> RefundedAtMostOnce(txs);
  }

  /** A row that is no refund, with the balance moved by its amount. */
  lemma OtherRowKeepsInv(txs: seq<CoinTx>, rows: seq<Row>, platform: int, row: Row)
    requires LedgerInv(txs, rows, platform) && row.kind != RefundRow
    ensures LedgerInv(txs, rows + [row], platform + row.amount)
  {
    AppendRow(rows, row);
  }

  lemma RefundKeepsInv(txs: seq<CoinTx>, rows: seq<Row>, platform: int, tx: CoinTx, id: Id, minor: int)
    requires LedgerInv(txs, rows, platform) && IsRefundOf(tx, id) && minor > 0
    ensures var known := exists r | r in rows :: r.kind == RefundRow && r.booking == id;
            LedgerInv(txs + [tx], if known then rows else rows + [Row(RefundRow, id, -minor)], platform - minor)
  {
    AppendTx(txs, tx);
    AppendRow(rows, Row(RefundRow, id, -minor));
    var known := exists r | r in rows :: r.kind == RefundRow && r.booking == id;
    if known {
      assert RefundsOf(txs + [tx], id) >= 2;
    } else {
      assert RefundsOf(txs + [tx], id) == 1;
      var rows' := rows + [Row(RefundRow, id, -minor)];
      assert Row(RefundRow, id, -minor) in rows';
      assert forall r :: r in rows' <==> r in rows || r == Row(RefundRow, id, -minor);
      assert RefundedAtMostOnce(txs + [tx]) <==> RefundedAtMostOnce(txs);
    }
  }

  lemma CreditMentorKeepsInv(s: State, id: Id, user: Id, mentorCoins: int, payoutMinor: int)
    requires PlatformInv(s) && CreditMentor(s, id, user, mentorCoins, payoutMinor).ok
    ensures PlatformInv(CreditMentor(s, id, user, mentorCoins, payoutMinor).state)
  {
    var txs := s.coinTxs;
    if mentorCoins > 0 {
      var tx := CoinTx(user, mentorCoins as real, SessionEarning, Some(id));
      OtherTxKeepsInv(s.coinTxs, s.rows, s.platform, tx);
      txs := s.coinTxs + [tx];
    }
    if payoutMinor > 0 {
      OtherRowKeepsInv(txs, s.rows, s.platform, Row(SessionPayout, id, -payoutMinor));
    }
  }

  lemma IssueRefundKeepsInv(s: State, id: Id, user: Id, refundCoins: int, refundMinor: int)
    requires PlatformInv(s) && refundMinor > 0 && IssueRefund(s, id, user, refundCoins, refundMinor).ok
    ensures PlatformInv(IssueRefund(s, id, user, refundCoins, refundMinor).state)
  {
    RefundKeepsInv(s.coinTxs, s.rows, s.platform, CoinTx(user, refundCoins as real, Refund, Some(id)), id, refundMinor);
  }

  /** A refund worth a coin is worth something in minor units. */
  lemma RefundMinorPositive(paymentType: PaymentType, total: real)
    requires Calculate(paymentType, total).refundCoins > 0
    ensures Calculate(paymentType, total).refundMinor > 0
  {
    if paymentType == Coins {
      assert total >= 0.5;
      RoundMonotone(25.0, total / COIN_VALUE * 100.0);
    } else {
      assert total * COIN_VALUE >= 0.5;
      RoundMonotone(25.0, total * 100.0);
    }
  }

  lemma PayOrRefundKeepsInv(s: State, id: Id, b: Booking)
    requires PlatformInv(s) && PayOrRefund(s, id, b).ok
    ensures PlatformInv(PayOrRefund(s, id, b).state)
  {
    var a := Calculate(b.paymentType, b.total);
    if b.mentorUserId.Some? {
      var u := b.mentorUserId.value;
      if MentorJoined(b) {
        CreditMentorKeepsInv(s, id, u, a.mentorCoins, a.mentorPayoutMinor);
      } else {
        var (noted, skipped) := RecordNoShow(s, u);
        if skipped >= 2 && a.refundCoins > 0 {
          RefundMinorPositive(b.paymentType, b.total);
          IssueRefundKeepsInv(noted.(blocked := noted.blocked + {u}), id, b.menteeId, a.refundCoins, a.refundMinor);
        }
      }
    }
  }

  lemma CreateKeepsInv(s: State, id: Id, i: CreateInput, now: int)
    requires PlatformInv(s) && !Create(s, id, i, now).1.Crashed?
    ensures PlatformInv(Create(s, id, i, now).0)
  {
    if CreateError(s, i, now).None? && i.paymentType == Coins {
      PayWithCoinsKeepsInv(s, id, NewBooking(s.mentors[i.mentorId], i));
    }
  }

  lemma PayWithCoinsKeepsInv(s: State, id: Id, b: Booking)
    requires PlatformInv(s) && !PayWithCoins(s, id, b).1.Crashed?
    ensures PlatformInv(PayWithCoins(s, id, b).0)
  {
    if DebitError(s, b.menteeId, b.total).None? {
      PayWithCoinsChanges(s, id, b);
      var tx, row := SpendTx(id, b), Row(CoinBooking, id, CollectedMinor(b.total));
      OtherTxKeepsInv(s.coinTxs, s.rows, s.platform, tx);
      OtherRowKeepsInv(s.coinTxs + [tx], s.rows, s.platform, row);
    }
  }

  function SpendTx(id: Id, b: Booking): CoinTx {
    CoinTx(b.menteeId, -b.total, SessionSpend, Some(id))
  }

  lemma PayWithCoinsChanges(s: State, id: Id, b: Booking)
    requires DebitError(s, b.menteeId, b.total).None? && !PayWithCoins(s, id, b).1.Crashed?
    ensures var s' := PayWithCoins(s, id, b).0;
            && s'.coinTxs == s.coinTxs + [SpendTx(id, b)]
            && if CollectedMinor(b.total) > 0 then
                 && s'.rows == s.rows + [Row(CoinBooking, id, CollectedMinor(b.total))]
                 && s'.platform == s.platform + CollectedMinor(b.total)
               else
                 s'.rows == s.rows && s'.platform == s.platform
  {
  }

  lemma CancelKeepsInv(s: State, id: Id, user: Id, byMentor: bool, now: int)
    requires PlatformInv(s) && !Cancel(s, id, user, byMentor, now).1.Crashed?
    ensures PlatformInv(Cancel(s, id, user, byMentor, now).0)
  {
    if Cancel(s, id, user, byMentor, now).1.Done? {
      var b := s.bookings[id];
      var marked := PutBooking(s, id, b.(status := if byMentor then CancelledByMentor else CancelledByMentee));
      var due := RefundDue(b, byMentor, now);
      if due > 0 {
        StripeRefundCoins(due);
        RefundToMinorExact(due);
        IssueRefundKeepsInv(marked, id, b.menteeId, due, RefundToMinor(due));
      }
    }
  }

  lemma StepKeepsInv(s: State, op: Op)
    requires PlatformInv(s) && !Perform(s, op).1.Crashed?
    ensures PlatformInv(Step(s, op))
  {
    match op
    case TopUp(user, amount) =>
      OtherTxKeepsInv(s.coinTxs, s.rows, s.platform, CoinTx(user, amount, Purchase, None));
    case CreateOp(id, i, now) =>
      if id !in s.bookings {
        CreateKeepsInv(s, id, i, now);
      }
    case RescheduleOp(_, _, _, _, _, _) =>
    case CancelOp(id, user, byMentor, now) => CancelKeepsInv(s, id, user, byMentor, now);
    case JoinOp(_, _, _) =>
    case TerminateOp(_, _, _) =>
    case SettleOp(id, now) =>
      if NeedsSettlement(s, id) {
        PayOrRefundKeepsInv(if s.bookings[id].status == Started then Complete(s, id) else s, id, s.bookings[id]);
      }
  }

  /**
    Over any run without crashes the platform's rows sum up to at least its balance, and to
    exactly its balance if and only if no booking was refunded twice: a second refund moves
    the balance but finds the refund row already written.
   */
  lemma {:induction false} RunPlatformInv(s: State, ops: seq<Op>)
    requires Initial(s) && CrashFree(s, ops)
    ensures PlatformInv(Run(s, ops))
  {
    if ops != [] {
      RunPlatformInv(s, ops[..|ops| - 1]);
      StepKeepsInv(Run(s, ops[..|ops| - 1]), ops[|ops| - 1]);
    }
  }
}
