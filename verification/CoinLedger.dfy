/** Every coin balance equals the sum of its transactions and is never negative. */
module CoinLedger {
  import opened Wrappers
  import opened Money
  import opened Bookings

  function SumOf(txs: seq<CoinTx>, user: Id): real {
    if txs == [] then 0.0
    else SumOf(txs[..|txs| - 1], user) + if txs[|txs| - 1].user == user then txs[|txs| - 1].amount else 0.0
  }

  ghost predicate Balanced(coins: map<Id, real>, txs: seq<CoinTx>) {
    forall u :: u in coins ==> coins[u] == SumOf(txs, u) && coins[u] >= 0.0
  }

  ghost predicate CoinsExact(s: State) {
    Balanced(s.coins, s.coinTxs)
  }

  lemma AppendBalanced(coins: map<Id, real>, txs: seq<CoinTx>, tx: CoinTx)
    requires Balanced(coins, txs) && tx.user in coins && coins[tx.user] + tx.amount >= 0.0
    ensures Balanced(coins[tx.user := coins[tx.user] + tx.amount], txs + [tx])
  {
    assert (txs + [tx])[..|txs|] == txs;
  }

  lemma AddCoinsKeepsExact(s: State, user: Id, amount: real, kind: CoinKind, booking: Option<Id>)
    requires CoinsExact(s) && user in s.coins && s.coins[user] + amount >= 0.0
    ensures CoinsExact(AddCoins(s, user, amount, kind, booking))
  {
    AppendBalanced(s.coins, s.coinTxs, CoinTx(user, amount, kind, booking));
  }

  lemma CreditKeepsExact(s: State, user: Id, amount: real, kind: CoinKind, booking: Option<Id>)
    requires CoinsExact(s) && amount > 0.0
    ensures CoinsExact(Credit(s, user, amount, kind, booking).state)
  {
    if user in s.coins {
      AddCoinsKeepsExact(s, user, amount, kind, booking);
    }
  }

  lemma IssueRefundKeepsExact(s: State, id: Id, user: Id, refundCoins: int, refundMinor: int)
    requires CoinsExact(s) && refundCoins > 0
    ensures CoinsExact(IssueRefund(s, id, user, refundCoins, refundMinor).state)
  {
    CreditKeepsExact(s, user, refundCoins as real, Refund, Some(id));
    var credited := Credit(s, user, refundCoins as real, Refund, Some(id)).state;
    var refunded := IssueRefund(s, id, user, refundCoins, refundMinor).state;
    assert refunded.coins == credited.coins && refunded.coinTxs == credited.coinTxs;
  }

  lemma PayOrRefundKeepsExact(s: State, id: Id, b: Booking)
    requires CoinsExact(s)
    ensures CoinsExact(PayOrRefund(s, id, b).state)
  {
    var a := Calculate(b.paymentType, b.total);
    if b.mentorUserId.Some? {
      var u := b.mentorUserId.value;
      if MentorJoined(b) {
        if a.mentorCoins > 0 {
          CreditKeepsExact(s, u, a.mentorCoins as real, SessionEarning, Some(id));
        }
      } else if a.refundCoins > 0 {
        var noted := RecordNoShow(s, u).0;
        IssueRefundKeepsExact(noted.(blocked := noted.blocked + {u}), id, b.menteeId, a.refundCoins, a.refundMinor);
      }
    }
  }

  lemma CreateKeepsExact(s: State, id: Id, i: CreateInput, now: int)
    requires CoinsExact(s)
    ensures CoinsExact(Create(s, id, i, now).0)
  {
    if CreateError(s, i, now).None? && i.paymentType == Coins {
      var b := NewBooking(s.mentors[i.mentorId], i);
      if DebitError(s, i.menteeId, b.total).None? {
        AddCoinsKeepsExact(s, i.menteeId, -b.total, SessionSpend, Some(id));
        var debited := AddCoins(s, i.menteeId, -b.total, SessionSpend, Some(id));
        assert Create(s, id, i, now).0.coins == debited.coins && Create(s, id, i, now).0.coinTxs == debited.coinTxs;
      }
    }
  }

  /**
    A booking paid with coins takes its price from the mentee alone, and the platform
    collects the same price in minor units.
   */
  lemma CoinBookingMovesItsPrice(s: State, id: Id, i: CreateInput, now: int)
    requires i.paymentType == Coins && Create(s, id, i, now).1.Done?
    ensures var s' := Create(s, id, i, now).0;
            var price := BookingAmount(PriceOf(s.mentors[i.mentorId]), i.start.value, i.end.value);
            && i.menteeId in s.coins && s.coins[i.menteeId] >= price.coins
            && s'.coins == s.coins[i.menteeId := s.coins[i.menteeId] - price.coins]
            && s'.platform - s.platform == if Round(price.currency * 100.0) > 0 then Round(price.currency * 100.0) else 0
  {
  }

  lemma CancelKeepsExact(s: State, id: Id, user: Id, byMentor: bool, now: int)
    requires CoinsExact(s)
    ensures CoinsExact(Cancel(s, id, user, byMentor, now).0)
  {
    if CancelError(s, id, user, byMentor).None? {
      CancelledKeepsExact(s, id, byMentor, now);
    }
  }

  lemma CancelledKeepsExact(s: State, id: Id, byMentor: bool, now: int)
    requires CoinsExact(s) && id in s.bookings
    ensures CoinsExact(Cancelled(s, id, byMentor, now).0)
  {
    var b := s.bookings[id];
    var marked := PutBooking(s, id, b.(status := if byMentor then CancelledByMentor else CancelledByMentee));
    var due := RefundDue(b, byMentor, now);
    if due > 0 {
      StripeRefundCoins(due);
      IssueRefundKeepsExact(marked, id, b.menteeId, due, RefundToMinor(due));
    }
  }

  lemma StepKeepsExact(s: State, op: Op)
    requires CoinsExact(s)
    ensures CoinsExact(Step(s, op))
  {
    match op
    case TopUp(user, amount) =>
      if amount > 0.0 && user in s.coins {
        AddCoinsKeepsExact(s, user, amount, Purchase, None);
      }
    case CreateOp(id, i, now) => CreateKeepsExact(s, id, i, now);
    case RescheduleOp(_, _, _, _, _, _) =>
    case CancelOp(id, user, byMentor, now) => CancelKeepsExact(s, id, user, byMentor, now);
    case JoinOp(_, _, _) =>
    case TerminateOp(_, _, _) =>
    case SettleOp(id, now) =>
      if NeedsSettlement(s, id) {
        PayOrRefundKeepsExact(if s.bookings[id].status == Started then Complete(s, id) else s, id, s.bookings[id]);
      }
  }

  /**
    Over any run, cancellations and half-finished steps included, each balance is the sum
    of its transactions and not negative.
   */
  lemma {:induction false} RunCoinsExact(s: State, ops: seq<Op>)
    requires Initial(s)
    ensures CoinsExact(Run(s, ops))
  {
    if ops != [] {
      RunCoinsExact(s, ops[..|ops| - 1]);
      StepKeepsExact(Run(s, ops[..|ops| - 1]), ops[|ops| - 1]);
    }
  }
}
