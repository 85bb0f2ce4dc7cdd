/**
  What a step that is carried out leaves behind, told by the stored fields and in plain
  numbers: the bookings and statistics it writes, and the coins it moves.
 */
module Outcomes {
  import opened Wrappers
  import opened Money
  import opened Bookings
  import opened Soundness
  import opened Attendance

  /** What was paid for the booking, in coins; a rupee is worth two. */
  function Worth(b: Booking): real {
    if b.paymentType == Coins then b.total else b.total * 2.0
  }

  /** `x` is `percent` of `whole`, rounded to a whole number. */
  predicate IsShare(x: int, percent: real, whole: real) {
    -0.5 <= x as real - whole * percent / 100.0 <= 0.5
  }

  // ---- settling a session -------------------------------------------------------------------------

  /** The settlement of a paid session that is under way completes it. */
  predicate Completes(s: State, id: Id) {
    && id in s.bookings && s.bookings[id].settledAt.None? && s.bookings[id].paymentStatus == Paid
    && s.bookings[id].status == Started
  }

  /**
    Whether it is cut short or not, a settlement changes one booking at most: it completes a
    paid session that is under way, leaves every other status, and notes the time if it is done.
   */
  lemma SettleWrites(s: State, id: Id, now: int)
    requires id in s.bookings
    ensures var b, (s', result) := s.bookings[id], Perform(s, SettleOp(id, now));
            s'.bookings == s.bookings[id := b.(
              status := if Completes(s, id) then Completed else b.status,
              settledAt := if b.settledAt.Some? || !result.Done? then b.settledAt else Some(now))]
    ensures s.bookings[id].settledAt.Some? || s.bookings[id].paymentStatus != Paid ==>
              Perform(s, SettleOp(id, now)).1.Done?
              && Step(s, SettleOp(id, now)) == s.(bookings := Step(s, SettleOp(id, now)).bookings)
  {
    if NeedsSettlement(s, id) {
      var b := s.bookings[id];
      var completed := if b.status == Started then Complete(s, id) else s;
      assert completed.bookings == s.bookings[id := b.(status := if b.status == Started then Completed else b.status)];
      assert PayOrRefund(completed, id, b).state.bookings == completed.bookings;
    }
  }

  /** One session more, which ends at `end`, or the same statistics. */
  predicate Counts(m: Mentor, m': Mentor, more: bool, end: int) {
    if more then
      && m'.totalSessions == m.totalSessions + 1
      && m'.lastSessionAt.Some? && m'.lastSessionAt.value >= end
      && (m'.lastSessionAt.value == end || m'.lastSessionAt == m.lastSessionAt)
      && (m.lastSessionAt.Some? ==> m'.lastSessionAt.value >= m.lastSessionAt.value)
    else m'.totalSessions == m.totalSessions && m'.lastSessionAt == m.lastSessionAt
  }

  /** The mentor of a session that a settlement completes has one session more, and nobody else has. */
  lemma SettleCounts(s: State, id: Id, now: int, m: Id)
    requires m in s.mentors
    ensures m in Step(s, SettleOp(id, now)).mentors
    ensures Counts(s.mentors[m], Step(s, SettleOp(id, now)).mentors[m],
                   Completes(s, id) && s.bookings[id].mentorId == m, if id in s.bookings then s.bookings[id].end else 0)
  {
    if NeedsSettlement(s, id) {
      var b := s.bookings[id];
      PayOrRefundCounts(if b.status == Started then Complete(s, id) else s, id, b, m);
    }
  }

  lemma PayOrRefundCounts(s: State, id: Id, b: Booking, m: Id)
    requires m in s.mentors
    ensures var mentors := PayOrRefund(s, id, b).state.mentors;
            m in mentors && Counts(s.mentors[m], mentors[m], false, 0)
  {
  }

  /** The mentor has come: a first arrival is noted, or the session is under way or over. */
  predicate Came(b: Booking) {
    b.mentorJoinedAt.Some? || b.status == Started || b.status == Completed
  }

  /** The session is paid and not settled, and its mentor is the user `u`. */
  predicate Owed(s: State, id: Id, u: Id) {
    && id in s.bookings && s.bookings[id].settledAt.None? && s.bookings[id].paymentStatus == Paid
    && s.bookings[id].mentorUserId == Some(u)
    && s.bookings[id].total >= 0.0 && u in s.coins && s.bookings[id].menteeId in s.coins
  }

  /** A user gets coins for the booking, and the wallet gives paise; nobody gets anything else. */
  predicate Pays(s: State, s': State, u: Id, kind: CoinKind, id: Id, coins: int, minor: int) {
    && u in s.coins && s'.coins == s.coins[u := s.coins[u] + coins as real]
    && s'.coinTxs == s.coinTxs + (if coins > 0 then [CoinTx(u, coins as real, kind, Some(id))] else [])
    && s'.platform == s.platform - minor
  }

  /** The refund has its row in the ledger, a new one if there was none. */
  predicate Noted(s: State, s': State, id: Id, minor: int) {
    s'.rows == s.rows + if minor > 0 && !exists r | r in s.rows :: r.kind == RefundRow && r.booking == id
                        then [Row(RefundRow, id, -minor)] else []
  }

  /** A mentor who came gets 85 percent, in coins and, from the wallet, in half rupees, and nobody is blocked. */
  lemma SettlePaysMentor(s: State, id: Id, now: int, u: Id) returns (coins: int, minor: int)
    requires Owed(s, id, u) && Came(s.bookings[id])
    ensures coins >= 0 && IsShare(coins, 85.0, Worth(s.bookings[id]))
    ensures minor >= 0 && IsShare(minor, 85.0, 50.0 * Worth(s.bookings[id]))
    ensures Pays(s, Step(s, SettleOp(id, now)), u, SessionEarning, id, coins, minor)
    ensures Perform(s, SettleOp(id, now)).1 == if minor == 0 || s.platform >= minor then Done else Crashed
    ensures Step(s, SettleOp(id, now)).rows
         == s.rows + if minor > 0 && s.platform >= minor then [Row(SessionPayout, id, -minor)] else []
    ensures Step(s, SettleOp(id, now)).blocked == s.blocked
  {
    var b := s.bookings[id];
    var amounts := Calculate(b.paymentType, b.total);
    coins, minor := amounts.mentorCoins, amounts.mentorPayoutMinor;
    ShareOfMentor(b);
    CreditMentorPays(if b.status == Started then Complete(s, id) else s, id, u, coins, minor);
  }

  lemma ShareOfMentor(b: Booking)
    requires b.total >= 0.0
    ensures var a := Calculate(b.paymentType, b.total);
            && a.mentorCoins >= 0 && IsShare(a.mentorCoins, 85.0, Worth(b))
            && a.mentorPayoutMinor >= 0 && IsShare(a.mentorPayoutMinor, 85.0, 50.0 * Worth(b))
  {
  }

  lemma CreditMentorPays(s: State, id: Id, u: Id, coins: int, minor: int)
    requires u in s.coins && coins >= 0 && minor >= 0
    ensures var a := CreditMentor(s, id, u, coins, minor);
            && Pays(s, a.state, u, SessionEarning, id, coins, minor) && (a.ok <==> minor == 0 || s.platform >= minor)
            && a.state.rows
               == s.rows + (if minor > 0 && s.platform >= minor then [Row(SessionPayout, id, -minor)] else [])
            && a.state.blocked == s.blocked
  {
  }

  /** How often the user has failed to come as a mentor; nobody else is counted. */
  function NoShowsOf(s: State, u: Id): nat {
    if u in s.mentorOf && s.mentorOf[u] in s.mentors then s.mentors[s.mentorOf[u]].skippedSessions else 0
  }

  /**
    A mentor who did not come, and had failed to come before, is blocked, and the mentee gets
    everything back; the first time nothing happens to either.
   */
  lemma SettleRefundsMentee(s: State, id: Id, now: int, u: Id) returns (coins: int, minor: int)
    requires Owed(s, id, u) && !Came(s.bookings[id]) && u in s.mentorOf && s.mentorOf[u] in s.mentors
    ensures NoShowsOf(Step(s, SettleOp(id, now)), u) == NoShowsOf(s, u) + 1
    ensures if NoShowsOf(s, u) >= 1 then
              && coins >= 0 && IsShare(coins, 100.0, Worth(s.bookings[id]))
              && (if coins > 0 then IsShare(minor, 100.0, 50.0 * Worth(s.bookings[id])) else minor == 0)
            else coins == 0 == minor
    ensures Pays(s, Step(s, SettleOp(id, now)), s.bookings[id].menteeId, Refund, id, coins, minor)
    ensures Noted(s, Step(s, SettleOp(id, now)), id, minor)
    ensures Perform(s, SettleOp(id, now)).1 == if minor == 0 || s.platform >= minor then Done else Crashed
    ensures Step(s, SettleOp(id, now)).blocked == s.blocked + if NoShowsOf(s, u) >= 1 then {u} else {}
  {
    var b := s.bookings[id];
    var a := Calculate(b.paymentType, b.total);
    var again := NoShowsOf(s, u) >= 1;
    coins := if again then a.refundCoins else 0;
    minor := if coins > 0 then a.refundMinor else 0;
    FullShare(b);
    PayOrRefundReturns(s, id, b, u, coins, minor);
  }

  lemma FullShare(b: Booking)
    requires b.total >= 0.0
    ensures var a := Calculate(b.paymentType, b.total);
            && a.refundCoins >= 0 && IsShare(a.refundCoins, 100.0, Worth(b))
            && IsShare(a.refundMinor, 100.0, 50.0 * Worth(b))
            && (a.refundCoins > 0 ==> a.refundMinor > 0)
  {
  }

  lemma PayOrRefundReturns(s: State, id: Id, b: Booking, u: Id, coins: int, minor: int)
    requires b.mentorUserId == Some(u) && !Came(b) && b.menteeId in s.coins
    requires u in s.mentorOf && s.mentorOf[u] in s.mentors
    requires var a := Calculate(b.paymentType, b.total);
             && a.refundCoins >= 0 && (a.refundCoins > 0 ==> a.refundMinor > 0)
             && coins == (if NoShowsOf(s, u) >= 1 then a.refundCoins else 0)
             && minor == if coins > 0 then a.refundMinor else 0
    ensures var s' := PayOrRefund(s, id, b).state;
            && NoShowsOf(s', u) == NoShowsOf(s, u) + 1
            && Pays(s, s', b.menteeId, Refund, id, coins, minor) && Noted(s, s', id, minor)
            && (PayOrRefund(s, id, b).ok <==> minor == 0 || s.platform >= minor)
            && s'.blocked == s.blocked + if NoShowsOf(s, u) >= 1 then {u} else {}
  {
    if coins == 0 {
      assert s.coins[b.menteeId := s.coins[b.menteeId] + 0.0] == s.coins;
    }
  }

  // ---- cancelling, joining and ending ---------------------------------------------------------------

  /**
    A cancellation marks the booking and returns, of a paid one, everything when the mentor
    cancels, and to a mentee nothing on the last day, half up to three days, and three
    quarters before that.
   */
  lemma CancelReturns(s: State, id: Id, user: Id, byMentor: bool, now: int) returns (coins: int)
    requires !Perform(s, CancelOp(id, user, byMentor, now)).1.Rejected?
    requires id in s.bookings && s.bookings[id].total >= 0.0 && s.bookings[id].menteeId in s.coins
    ensures var b := s.bookings[id];
            if b.paymentStatus != Paid then coins == 0
            else if byMentor then IsShare(coins, 100.0, Worth(b))
            else if b.start - now <= 86_400_000 then coins == 0
            else if b.start - now <= 259_200_000 then IsShare(coins, 50.0, Worth(b))
            else IsShare(coins, 75.0, Worth(b))
    ensures var b, s' := s.bookings[id], Step(s, CancelOp(id, user, byMentor, now));
            && Pays(s, s', b.menteeId, Refund, id, coins, 50 * coins) && Noted(s, s', id, 50 * coins)
            && (Perform(s, CancelOp(id, user, byMentor, now)).1 ==
                  if coins == 0 || s.platform >= 50 * coins then Done else Crashed)
            && s'.bookings == s.bookings[id := b.(status := if byMentor then CancelledByMentor else CancelledByMentee)]
            && s'.mentors == s.mentors && s'.blocked == s.blocked
  {
    var b := s.bookings[id];
    coins := RefundDue(b, byMentor, now);
    DueShare(b, byMentor, now);
    StripeRefundCoins(coins);
    CancelPays(s, id, byMentor, now);
  }

  lemma DueShare(b: Booking, byMentor: bool, now: int)
    requires b.total >= 0.0
    ensures var coins := RefundDue(b, byMentor, now);
            && coins >= 0
            && if b.paymentStatus != Paid then coins == 0
               else if byMentor then IsShare(coins, 100.0, Worth(b))
               else if b.start - now <= 86_400_000 then coins == 0
               else if b.start - now <= 259_200_000 then IsShare(coins, 50.0, Worth(b))
               else IsShare(coins, 75.0, Worth(b))
  {
  }

  lemma CancelPays(s: State, id: Id, byMentor: bool, now: int)
    requires id in s.bookings && s.bookings[id].menteeId in s.coins
    ensures var b, s', due := s.bookings[id], Cancelled(s, id, byMentor, now).0, RefundDue(s.bookings[id], byMentor, now);
            && Pays(s, s', b.menteeId, Refund, id, if due > 0 then due else 0, if due > 0 then 50 * due else 0)
            && Noted(s, s', id, if due > 0 then 50 * due else 0)
            && (Cancelled(s, id, byMentor, now).1 == if due <= 0 || s.platform >= 50 * due then Done else Crashed)
            && s'.bookings == s.bookings[id := b.(status := if byMentor then CancelledByMentor else CancelledByMentee)]
            && s'.mentors == s.mentors && s'.blocked == s.blocked
  {
    var b, due := s.bookings[id], RefundDue(s.bookings[id], byMentor, now);
    RefundToMinorExact(due);
    StripeRefundCoins(due);
    if due <= 0 {
      assert s.coins[b.menteeId := s.coins[b.menteeId] + 0.0] == s.coins;
    }
  }

  /** The mentor's arrival starts a confirmed session and notes the first time; a mentee's changes nothing. */
  lemma JoinWrites(s: State, id: Id, user: Id, now: int)
    requires Perform(s, JoinOp(id, user, now)).1.Done?
    ensures id in s.bookings
    ensures var b, s' := s.bookings[id], Step(s, JoinOp(id, user, now));
            s' == if b.mentorUserId == Some(user) then
                    s.(bookings := s.bookings[id := b.(
                         status := if b.status == Confirmed then Started else b.status,
                         mentorJoinedAt := if b.mentorJoinedAt.Some? then b.mentorJoinedAt else Some(now))])
                  else s
  {
  }

  /** Ending a session completes it and counts it for its mentor, once. */
  lemma TerminateWrites(s: State, id: Id, user: Id, now: int)
    requires Perform(s, TerminateOp(id, user, now)).1.Done?
    ensures id in s.bookings
    ensures var b, s' := s.bookings[id], Step(s, TerminateOp(id, user, now));
            && s'.bookings == s.bookings[id := b.(status := Completed)]
            && s' == s.(bookings := s'.bookings, mentors := s'.mentors)
            && forall m :: m in s.mentors ==>
                 && m in s'.mentors
                 && Counts(s.mentors[m], s'.mentors[m], b.status != Completed && b.mentorId == m, b.end)
  {
    var b, s' := s.bookings[id], Step(s, TerminateOp(id, user, now));
    assert s.bookings[id := b.(status := Completed)] == s'.bookings;
  }

  /** A refused request changes nothing. */
  lemma RefusedChangesNothing(s: State, op: Op)
    requires Perform(s, op).1.Rejected?
    ensures Step(s, op) == s
  {
  }

  // ---- wallets and counters --------------------------------------------------------------------------

  /** A credit needs a user and an amount, and moves balance and transactions together. */
  lemma CreditExactly(s: State, u: Id, amount: real, kind: CoinKind, booking: Option<Id>)
    ensures var a := Credit(s, u, amount, kind, booking);
            && (a.ok <==> u in s.coins && amount != 0.0)
            && a.state == if u in s.coins && amount != 0.0 then
                            s.(coins := s.coins[u := s.coins[u] + amount],
                               coinTxs := s.coinTxs + [CoinTx(u, amount, kind, booking)])
                          else s
  {
  }

  /** Why a debit is refused. */
  lemma DebitExactly(s: State, u: Id, amount: real)
    ensures DebitError(s, u, amount) == Some(UserNotFound) <==> u !in s.coins
    ensures DebitError(s, u, amount) == Some(InsufficientBalance) <==> u in s.coins && s.coins[u] < amount
    ensures DebitError(s, u, amount) == Some(InvalidTransaction) <==>
              u in s.coins && s.coins[u] >= amount && amount == 0.0
    ensures DebitError(s, u, amount).None? <==> u in s.coins && s.coins[u] >= amount && amount != 0.0
  {
  }

  /** A refund returns coins every time, has one row, and takes what it returns from the wallet. */
  lemma RefundExactly(s: State, id: Id, u: Id, coins: int, minor: int)
    requires u in s.coins && coins > 0 && minor >= 0
    ensures var a := IssueRefund(s, id, u, coins, minor);
            && Pays(s, a.state, u, Refund, id, coins, minor) && Noted(s, a.state, id, minor)
            && (a.ok <==> minor == 0 || s.platform >= minor)
  {
  }

  /** A no-show is counted for a mentor, and the new count is returned; anybody else has none. */
  lemma NoShowExactly(s: State, u: Id)
    ensures var (s', count) := RecordNoShow(s, u);
            if u in s.mentorOf && s.mentorOf[u] in s.mentors then
              var m := s.mentorOf[u];
              && count == s.mentors[m].skippedSessions + 1
              && s' == s.(mentors := s.mentors[m := s.mentors[m].(skippedSessions := count)])
            else count == 0 && s' == s
  {
  }

  // ---- earnings over runs --------------------------------------------------------------------------

  /** Completed, or cancelled before the mentor came. */
  predicate Over(b: Booking) {
    b.status == Completed || b.status == CancelledByMentee || b.status == CancelledByMentor
  }

  /** A mentor has come only to sessions that have left PENDING and CONFIRMED. */
  predicate Orderly(b: Booking) {
    b.status != SlotTaken && (Came(b) ==> b.status == Started || Over(b))
  }

  /** Every step keeps that, and what is over stays over. */
  predicate StaysOrderly(b: Booking, b': Booking) {
    Orderly(b') && (Over(b) ==> Over(b'))
  }

  lemma StepOrderly(s: State, op: Op, id: Id)
    requires id in s.bookings && Orderly(s.bookings[id])
    ensures id in Step(s, op).bookings && StaysOrderly(s.bookings[id], Step(s, op).bookings[id])
  {
    match op
    case CreateOp(created, i, now) => CreateAddsOne(s, created, i, now);
    case CancelOp(cancelled, user, byMentor, now) => CancelOrderly(s, cancelled, user, byMentor, now, id);
    case SettleOp(settled, now) =>
      if settled in s.bookings {
        SettleWrites(s, settled, now);
      }
    case JoinOp(joined, user, now) => JoinOrderly(s, joined, user, now, id);
    case TerminateOp(ended, user, now) => TerminateOrderly(s, ended, user, now, id);
    case _ =>
  }

  lemma CancelOrderly(s: State, cancelled: Id, user: Id, byMentor: bool, now: int, id: Id)
    requires id in s.bookings && Orderly(s.bookings[id])
    ensures var bookings := Cancel(s, cancelled, user, byMentor, now).0.bookings;
            id in bookings && StaysOrderly(s.bookings[id], bookings[id])
  {
  }

  lemma JoinOrderly(s: State, joined: Id, user: Id, now: int, id: Id)
    requires id in s.bookings && Orderly(s.bookings[id])
    ensures var bookings := Join(s, joined, user, now).0.bookings;
            id in bookings && StaysOrderly(s.bookings[id], bookings[id])
  {
  }

  lemma TerminateOrderly(s: State, ended: Id, user: Id, now: int, id: Id)
    requires id in s.bookings && Orderly(s.bookings[id])
    ensures var bookings := Terminate(s, ended, user, now).0.bookings;
            id in bookings && StaysOrderly(s.bookings[id], bookings[id])
  {
  }

  lemma {:induction false} RunOrderly(s: State, ops: seq<Op>, id: Id)
    requires Initial(s) && id in Run(s, ops).bookings
    ensures Orderly(Run(s, ops).bookings[id])
  {
    if ops != [] {
      var before, op := Run(s, ops[..|ops| - 1]), ops[|ops| - 1];
      if id in before.bookings {
        RunOrderly(s, ops[..|ops| - 1], id);
        StepOrderly(before, op, id);
      } else {
        StepNewBooking(before, op, id);
      }
    }
  }

  /** A new earning is written by the settlement of a paid session whose mentor came. */
  lemma StepEarns(s: State, op: Op, tx: CoinTx)
    requires tx in Step(s, op).coinTxs && tx !in s.coinTxs && tx.kind == SessionEarning
    ensures op.SettleOp? && tx.booking == Some(op.id) && NeedsSettlement(s, op.id) && Came(s.bookings[op.id])
  {
    match op
    case CreateOp(id, i, now) => CreateAddsNoEarning(s, id, i, now);
    case CancelOp(id, user, byMentor, now) => CancelAddsNoEarning(s, id, user, byMentor, now);
    case SettleOp(id, now) =>
      if NeedsSettlement(s, id) {
        var b := s.bookings[id];
        PayOrRefundAddsEarned(if b.status == Started then Complete(s, id) else s, id, b);
      }
    case _ =>
  }

  /** Over any run, those cut short included, the session of every earning is completed or cancelled. */
  lemma {:induction false} EarnedSessionsAreOver(s: State, ops: seq<Op>, tx: CoinTx)
    requires Initial(s) && tx in Run(s, ops).coinTxs && tx.kind == SessionEarning
    ensures tx.booking.Some? && tx.booking.value in Run(s, ops).bookings
    ensures Over(Run(s, ops).bookings[tx.booking.value])
  {
    var prefix, op := ops[..|ops| - 1], ops[|ops| - 1];
    var before := Run(s, prefix);
    if tx in before.coinTxs {
      EarnedSessionsAreOver(s, prefix, tx);
      RunOrderly(s, prefix, tx.booking.value);
      StepOrderly(before, op, tx.booking.value);
    } else {
      StepEarns(before, op, tx);
      RunOrderly(s, prefix, op.id);
      SettleWrites(before, op.id, op.now);
    }
  }
}
