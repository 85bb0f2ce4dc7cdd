/**
  Runs that show what follows from settling cancelled sessions like any other, and from
  cancelling sessions that are settled: one mentee books two sessions with one mentor.
 */
module CancelledSessions {
  import opened Wrappers
  import opened Money
  import opened Bookings
  import opened PlatformLedger
  import opened SettlementOnce
  import opened Counterexamples

  const LATER: int := START + 3_600_000
  const BOTH_OVER: int := LATER + HALF_HOUR

  function NextSession(): Booking {
    Session(MENTOR, MENTOR_USER, MENTEE, LATER)
  }

  function TwoBooked(): State {
    Booked(OneBooked(), NEXT_BOOKING, NextSession())
  }

  function TwoBookings(): seq<Op> {
    TopUps() + [FirstBook()] + [Book(NEXT_BOOKING, MENTOR, MENTEE, LATER, 0)]
  }

  lemma TwoBookedReached()
    ensures Reaches(TwoBookings(), TwoBooked())
  {
    OneBookedReached();
    FreeBesides(OneBooked(), FIRST_BOOKING, MENTOR, MENTEE, LATER, LATER + HALF_HOUR);
    BookStep(OneBooked(), NEXT_BOOKING, MENTOR, MENTEE, LATER, 0);
    Next(TopUps() + [FirstBook()], OneBooked(), Book(NEXT_BOOKING, MENTOR, MENTEE, LATER, 0));
  }

  /** The mentee's coins, the credits of the later session, the wallet, and the sum of its rows. */
  ghost predicate Tally(s: State, coins: int, credits: nat, platform: int, rows: int, refunded: bool) {
    && MENTEE in s.coins && s.coins[MENTEE] == coins as real
    && CreditsOf(s.coinTxs, NEXT_BOOKING) == credits
    && s.platform == platform && SumRows(s.rows) == rows && (HasRefundRow(s, NEXT_BOOKING) <==> refunded)
  }

  predicate SameMoney(s: State, s': State) {
    s'.coins == s.coins && s'.coinTxs == s.coinTxs && s'.platform == s.platform && s'.rows == s.rows
  }

  /** What the runs below need to know of the state after the two bookings. */
  ghost predicate Fresh(s: State) {
    && s.bookings == map[FIRST_BOOKING := FirstSession(), NEXT_BOOKING := NextSession()]
    && MENTOR_USER in s.mentorOf && s.mentorOf[MENTOR_USER] == MENTOR
    && MENTOR in s.mentors && s.mentors[MENTOR].skippedSessions == 0
    && MENTEE in s.coins && s.platform == 20_000
  }

  lemma OneBookedRows()
    ensures OneBooked().rows == [Row(CoinBooking, FIRST_BOOKING, 10_000)]
  {
  }

  lemma TwoRows(first: Row, second: Row)
    requires first.kind == CoinBooking && second.kind == CoinBooking
    ensures SumRows([first, second]) == first.amount + second.amount
    ensures forall r | r in [first, second] :: r.kind == CoinBooking
  {
    AppendRow([], first);
    AppendRow([first], second);
    assert [] + [first] == [first] && [first] + [second] == [first, second];
  }

  lemma TwoBookedRows()
    ensures SumRows(TwoBooked().rows) == 20_000 && forall r | r in TwoBooked().rows :: r.kind == CoinBooking
  {
    OneBookedRows();
    TwoRows(Row(CoinBooking, FIRST_BOOKING, 10_000), Row(CoinBooking, NEXT_BOOKING, 10_000));
    assert TwoBooked().rows == [Row(CoinBooking, FIRST_BOOKING, 10_000), Row(CoinBooking, NEXT_BOOKING, 10_000)];
  }

  lemma {:induction false} NoCredits(txs: seq<CoinTx>)
    requires forall tx :: tx in txs ==> tx.kind == Purchase || tx.kind == SessionSpend
    ensures CreditsOf(txs, NEXT_BOOKING) == 0
  {
    if txs != [] {
      NoCredits(txs[..|txs| - 1]);
    }
  }

  lemma TwoBookedState()
    ensures Fresh(TwoBooked()) && TwoBooked().coins[MENTEE] == 0.0
    ensures forall tx :: tx in TwoBooked().coinTxs ==> tx.kind == Purchase || tx.kind == SessionSpend
  {
  }

  lemma TwoBookedFresh()
    ensures Fresh(TwoBooked()) && Tally(TwoBooked(), 0, 0, 20_000, 20_000, false)
  {
    TwoBookedState();
    TwoBookedRows();
    NoCredits(TwoBooked().coinTxs);
  }

  // ---- steps ----------------------------------------------------------------------------------

  /** The mentee gets coins back for the session, and the wallet pays half a rupee for each. */
  function Returned(s: State, id: Id, coins: int): State
    requires MENTEE in s.coins
  {
    s.(coins := s.coins[MENTEE := s.coins[MENTEE] + coins as real],
       coinTxs := s.coinTxs + [CoinTx(MENTEE, coins as real, Refund, Some(id))],
       platform := s.platform - 50 * coins,
       rows := if HasRefundRow(s, id) then s.rows else s.rows + [Row(RefundRow, id, -50 * coins)])
  }

  /** A session of the two, as far as money is concerned. */
  predicate Ours(s: State, id: Id) {
    && id in s.bookings && MENTEE in s.coins
    && s.bookings[id].menteeId == MENTEE && s.bookings[id].mentorId == MENTOR
    && s.bookings[id].mentorUserId == Some(MENTOR_USER) && s.bookings[id].mentorJoinedAt.None?
    && s.bookings[id].paymentType == Coins && s.bookings[id].paymentStatus == Paid && s.bookings[id].total == 200.0
    && MENTOR_USER in s.mentorOf && s.mentorOf[MENTOR_USER] == MENTOR && MENTOR in s.mentors
  }

  function Marked(s: State, id: Id, byMentor: bool): State
    requires id in s.bookings
  {
    PutBooking(s, id, s.bookings[id].(status := if byMentor then CancelledByMentor else CancelledByMentee))
  }

  function CancelIt(id: Id, byMentor: bool, now: int): Op {
    CancelOp(id, if byMentor then MENTOR_USER else MENTEE, byMentor, now)
  }

  lemma CancelStep(s: State, id: Id, byMentor: bool, now: int)
    requires Ours(s, id) && s.bookings[id].status == Confirmed
    ensures var due := RefundDue(s.bookings[id], byMentor, now);
            && (due <= 0 ==> Perform(s, CancelIt(id, byMentor, now)) == (Marked(s, id, byMentor), Done))
            && (0 < 50 * due <= s.platform ==>
                  Perform(s, CancelIt(id, byMentor, now)) == (Returned(Marked(s, id, byMentor), id, due), Done))
  {
    RefundToMinorExact(RefundDue(s.bookings[id], byMentor, now));
  }

  /** One more no-show of the mentor. */
  function Skips(s: State): State
    requires MENTOR in s.mentors
  {
    s.(mentors := s.mentors[MENTOR := s.mentors[MENTOR].(skippedSessions := s.mentors[MENTOR].skippedSessions + 1)])
  }

  lemma FirstMissStep(s: State, id: Id, now: int)
    requires Ours(s, id) && s.bookings[id].settledAt.None?
    requires s.bookings[id].status == Confirmed || IsCancelled(s.bookings[id].status)
    requires s.mentors[MENTOR].skippedSessions == 0
    ensures Perform(s, SettleOp(id, now)) == (MarkSettled(Skips(s), id, now), Done)
  {
    assert RecordNoShow(s, MENTOR_USER) == (Skips(s), 1);
  }

  function Blocks(s: State): State {
    s.(blocked := s.blocked + {MENTOR_USER})
  }

  lemma SecondMissStep(s: State, id: Id, now: int)
    requires Ours(s, id) && s.bookings[id].settledAt.None? && s.platform >= 10_000
    requires s.bookings[id].status == Confirmed || IsCancelled(s.bookings[id].status)
    requires s.mentors[MENTOR].skippedSessions == 1
    ensures Perform(s, SettleOp(id, now)) == (MarkSettled(Returned(Blocks(Skips(s)), id, 200), id, now), Done)
  {
    var a := Calculate(Coins, 200.0);
    assert a.refundCoins == 200 && a.refundMinor == 10_000;
    assert RecordNoShow(s, MENTOR_USER) == (Skips(s), 2);
  }

  // ---- cancelled and then missed ------------------------------------------------------------------

  /** The later session is cancelled and refunded at time 0, and then both sessions are settled. */
  function CancelledThenMissed(byMentor: bool): seq<Op> {
    TwoBookings() + [CancelIt(NEXT_BOOKING, byMentor, 0)]
    + [SettleOp(FIRST_BOOKING, END)] + [SettleOp(NEXT_BOOKING, BOTH_OVER)]
  }

  function NextCancelled(s: State, byMentor: bool): State
    requires Fresh(s)
  {
    Returned(Marked(s, NEXT_BOOKING, byMentor), NEXT_BOOKING, if byMentor then 200 else 150)
  }

  lemma NextCancelledStep(s: State, byMentor: bool)
    requires Fresh(s)
    ensures Perform(s, CancelIt(NEXT_BOOKING, byMentor, 0)) == (NextCancelled(s, byMentor), Done)
  {
    assert RefundDue(NextSession(), byMentor, 0) == if byMentor then 200 else 150;
    CancelStep(s, NEXT_BOOKING, byMentor, 0);
  }

  function FirstMissed(s: State): State
    requires FIRST_BOOKING in s.bookings && MENTOR in s.mentors
  {
    MarkSettled(Skips(s), FIRST_BOOKING, END)
  }

  /** The no-show refund of the session, which is the mentor's second missed one. */
  function NextMissed(s: State): State
    requires NEXT_BOOKING in s.bookings && MENTOR in s.mentors && MENTEE in s.coins
  {
    MarkSettled(Returned(Blocks(Skips(s)), NEXT_BOOKING, 200), NEXT_BOOKING, BOTH_OVER)
  }

  lemma CancelledThenMissedSteps(s: State, byMentor: bool)
    requires Fresh(s)
    ensures var s1 := NextCancelled(s, byMentor);
            && Perform(s1, SettleOp(FIRST_BOOKING, END)) == (FirstMissed(s1), Done)
            && Perform(FirstMissed(s1), SettleOp(NEXT_BOOKING, BOTH_OVER)) == (NextMissed(FirstMissed(s1)), Done)
  {
    FirstMissStep(NextCancelled(s, byMentor), FIRST_BOOKING, END);
    SecondMissStep(FirstMissed(NextCancelled(s, byMentor)), NEXT_BOOKING, BOTH_OVER);
  }

  lemma CancelledThenMissedReached(byMentor: bool)
    requires Fresh(TwoBooked())
    ensures Reaches(CancelledThenMissed(byMentor), NextMissed(FirstMissed(NextCancelled(TwoBooked(), byMentor))))
  {
    var s := TwoBooked();
    var cancel := CancelIt(NEXT_BOOKING, byMentor, 0);
    TwoBookedReached();
    NextCancelledStep(s, byMentor);
    Next(TwoBookings(), s, cancel);
    CancelledThenMissedSteps(s, byMentor);
    Next(TwoBookings() + [cancel], NextCancelled(s, byMentor), SettleOp(FIRST_BOOKING, END));
    Next(TwoBookings() + [cancel] + [SettleOp(FIRST_BOOKING, END)], FirstMissed(NextCancelled(s, byMentor)),
         SettleOp(NEXT_BOOKING, BOTH_OVER));
  }

  lemma ReturnedTally(s: State, returned: int, coins: int, credits: nat, platform: int, rows: int, refunded: bool)
    requires Tally(s, coins, credits, platform, rows, refunded)
    ensures Tally(Returned(s, NEXT_BOOKING, returned), coins + returned, credits + 1, platform - 50 * returned,
                  if refunded then rows else rows - 50 * returned, true)
  {
    AppendCredit(s.coinTxs, CoinTx(MENTEE, returned as real, Refund, Some(NEXT_BOOKING)), NEXT_BOOKING);
    if !refunded {
      var row := Row(RefundRow, NEXT_BOOKING, -50 * returned);
      AppendRow(s.rows, row);
      assert row in s.rows + [row];
    }
  }

  lemma SameTally(s: State, s': State, coins: int, credits: nat, platform: int, rows: int, refunded: bool)
    requires Tally(s, coins, credits, platform, rows, refunded) && SameMoney(s, s')
    ensures Tally(s', coins, credits, platform, rows, refunded)
  {
  }

  lemma AfterCancelledThenMissed(s: State, byMentor: bool, due: int)
    requires Fresh(s) && Tally(s, 0, 0, 20_000, 20_000, false) && due == if byMentor then 200 else 150
    ensures Tally(NextMissed(FirstMissed(NextCancelled(s, byMentor))),
                  due + 200, 2, 10_000 - 50 * due, 20_000 - 50 * due, true)
  {
    var s1 := Marked(s, NEXT_BOOKING, byMentor);
    SameTally(s, s1, 0, 0, 20_000, 20_000, false);
    ReturnedTally(s1, due, 0, 0, 20_000, 20_000, false);
    var s2 := Returned(s1, NEXT_BOOKING, due);
    var s3 := Blocks(Skips(FirstMissed(s2)));
    SameTally(s2, s3, due, 1, 20_000 - 50 * due, 20_000 - 50 * due, true);
    ReturnedTally(s3, 200, due, 1, 20_000 - 50 * due, 20_000 - 50 * due, true);
    var s4 := Returned(s3, NEXT_BOOKING, 200);
    SameTally(s4, NextMissed(FirstMissed(s2)), due + 200, 2, 10_000 - 50 * due, 20_000 - 50 * due, true);
  }

  /**
    Nothing fails, and yet the ledger says 10,000 more than the wallet holds: the mentor's
    cancellation and the no-show refund the same session, and one row is written.
   */
  lemma SecondRefundIsUnrecorded()
    ensures Initial(World()) && CrashFree(World(), CancelledThenMissed(true))
    ensures var s := Run(World(), CancelledThenMissed(true));
            SumRows(s.rows) == s.platform + 10_000
  {
    WorldInitial();
    TwoBookedFresh();
    CancelledThenMissedReached(true);
    AfterCancelledThenMissed(TwoBooked(), true, 200);
  }

  /** The mentee cancels the later session in time for 75 percent, and then gets all of it back as a no-show. */
  lemma RefundedMoreThanPaid()
    ensures Initial(World()) && CrashFree(World(), CancelledThenMissed(false))
    ensures var s := Run(World(), CancelledThenMissed(false));
            && CreditsOf(s.coinTxs, NEXT_BOOKING) == 2
            && MENTEE in s.coins && s.coins[MENTEE] == 400.0 - 2.0 * 200.0 + 350.0
  {
    WorldInitial();
    TwoBookedFresh();
    CancelledThenMissedReached(false);
    AfterCancelledThenMissed(TwoBooked(), false, 150);
  }

  // ---- missed and then cancelled ------------------------------------------------------------------

  /** Both sessions are missed and settled; the later one stays CONFIRMED, and the mentor cancels it. */
  function MissedThenCancelled(): seq<Op> {
    TwoBookings() + [SettleOp(FIRST_BOOKING, END)] + [SettleOp(NEXT_BOOKING, BOTH_OVER)]
    + [CancelIt(NEXT_BOOKING, true, BOTH_OVER)]
  }

  function CancelledAfterAll(s: State): State
    requires Fresh(s)
  {
    Returned(Marked(NextMissed(FirstMissed(s)), NEXT_BOOKING, true), NEXT_BOOKING, 200)
  }

  lemma MissedThenCancelledSteps(s: State)
    requires Fresh(s)
    ensures var s1, s2 := FirstMissed(s), NextMissed(FirstMissed(s));
            && Perform(s, SettleOp(FIRST_BOOKING, END)) == (s1, Done)
            && Perform(s1, SettleOp(NEXT_BOOKING, BOTH_OVER)) == (s2, Done)
            && Perform(s2, CancelIt(NEXT_BOOKING, true, BOTH_OVER)) == (CancelledAfterAll(s), Done)
  {
    FirstMissStep(s, FIRST_BOOKING, END);
    SecondMissStep(FirstMissed(s), NEXT_BOOKING, BOTH_OVER);
    assert RefundDue(NextSession().(settledAt := Some(BOTH_OVER)), true, BOTH_OVER) == 200;
    CancelStep(NextMissed(FirstMissed(s)), NEXT_BOOKING, true, BOTH_OVER);
  }

  lemma MissedThenCancelledReached()
    requires Fresh(TwoBooked())
    ensures Reaches(MissedThenCancelled(), CancelledAfterAll(TwoBooked()))
  {
    var s := TwoBooked();
    TwoBookedReached();
    MissedThenCancelledSteps(s);
    Next(TwoBookings(), s, SettleOp(FIRST_BOOKING, END));
    Next(TwoBookings() + [SettleOp(FIRST_BOOKING, END)], FirstMissed(s), SettleOp(NEXT_BOOKING, BOTH_OVER));
    Next(TwoBookings() + [SettleOp(FIRST_BOOKING, END)] + [SettleOp(NEXT_BOOKING, BOTH_OVER)],
         NextMissed(FirstMissed(s)), CancelIt(NEXT_BOOKING, true, BOTH_OVER));
  }

  lemma AfterMissedThenCancelled(s: State)
    requires Fresh(s) && Tally(s, 0, 0, 20_000, 20_000, false)
    ensures Tally(CancelledAfterAll(s), 400, 2, 0, 10_000, true)
  {
    var s1 := Blocks(Skips(FirstMissed(s)));
    SameTally(s, s1, 0, 0, 20_000, 20_000, false);
    ReturnedTally(s1, 200, 0, 0, 20_000, 20_000, false);
    var s2 := Marked(NextMissed(FirstMissed(s)), NEXT_BOOKING, true);
    SameTally(Returned(s1, NEXT_BOOKING, 200), s2, 200, 1, 10_000, 10_000, true);
    ReturnedTally(s2, 200, 200, 1, 10_000, 10_000, true);
  }

  /** Two full refunds for one session, with nothing failing: a no-show leaves the booking cancellable. */
  lemma RefundedTwiceInFull()
    ensures Initial(World()) && CrashFree(World(), MissedThenCancelled())
    ensures var s := Run(World(), MissedThenCancelled());
            && CreditsOf(s.coinTxs, NEXT_BOOKING) == 2
            && MENTEE in s.coins && s.coins[MENTEE] == 400.0
  {
    WorldInitial();
    TwoBookedFresh();
    MissedThenCancelledReached();
    AfterMissedThenCancelled(TwoBooked());
  }

  // ---- blocked without a session that was to be held --------------------------------------------------

  const TOO_LATE: int := START - 1_000

  /** The mentee cancels both sessions a second before the first one, and both are settled. */
  function CancelledLate(): seq<Op> {
    TwoBookings() + [CancelIt(FIRST_BOOKING, false, TOO_LATE)] + [CancelIt(NEXT_BOOKING, false, TOO_LATE)]
    + [SettleOp(FIRST_BOOKING, END)] + [SettleOp(NEXT_BOOKING, BOTH_OVER)]
  }

  function BothCancelled(s: State): State
    requires Fresh(s)
  {
    Marked(Marked(s, FIRST_BOOKING, false), NEXT_BOOKING, false)
  }

  lemma CancelledLateSteps(s: State)
    requires Fresh(s)
    ensures var s1, s2 := Marked(s, FIRST_BOOKING, false), BothCancelled(s);
            && Perform(s, CancelIt(FIRST_BOOKING, false, TOO_LATE)) == (s1, Done)
            && Perform(s1, CancelIt(NEXT_BOOKING, false, TOO_LATE)) == (s2, Done)
  {
    assert RefundDue(FirstSession(), false, TOO_LATE) == 0 && RefundDue(NextSession(), false, TOO_LATE) == 0;
    CancelStep(s, FIRST_BOOKING, false, TOO_LATE);
    CancelStep(Marked(s, FIRST_BOOKING, false), NEXT_BOOKING, false, TOO_LATE);
  }

  lemma BothMissedSteps(s: State)
    requires Fresh(s)
    ensures var s2 := BothCancelled(s);
            && Perform(s2, SettleOp(FIRST_BOOKING, END)) == (FirstMissed(s2), Done)
            && Perform(FirstMissed(s2), SettleOp(NEXT_BOOKING, BOTH_OVER)) == (NextMissed(FirstMissed(s2)), Done)
  {
    FirstMissStep(BothCancelled(s), FIRST_BOOKING, END);
    SecondMissStep(FirstMissed(BothCancelled(s)), NEXT_BOOKING, BOTH_OVER);
  }

  lemma CancelledLateReached()
    requires Fresh(TwoBooked())
    ensures Reaches(CancelledLate(), NextMissed(FirstMissed(BothCancelled(TwoBooked()))))
  {
    var s := TwoBooked();
    var ops := TwoBookings() + [CancelIt(FIRST_BOOKING, false, TOO_LATE)];
    TwoBookedReached();
    CancelledLateSteps(s);
    Next(TwoBookings(), s, CancelIt(FIRST_BOOKING, false, TOO_LATE));
    Next(ops, Marked(s, FIRST_BOOKING, false), CancelIt(NEXT_BOOKING, false, TOO_LATE));
    BothMissedSteps(s);
    Next(ops + [CancelIt(NEXT_BOOKING, false, TOO_LATE)], BothCancelled(s), SettleOp(FIRST_BOOKING, END));
    Next(ops + [CancelIt(NEXT_BOOKING, false, TOO_LATE)] + [SettleOp(FIRST_BOOKING, END)],
         FirstMissed(BothCancelled(s)), SettleOp(NEXT_BOOKING, BOTH_OVER));
  }

  lemma AfterCancelledLate(s: State)
    requires Fresh(s) && Tally(s, 0, 0, 20_000, 20_000, false)
    ensures var s' := NextMissed(FirstMissed(BothCancelled(s)));
            && MENTOR_USER in s'.blocked && MENTEE in s'.coins && s'.coins[MENTEE] == 200.0
            && forall id :: id in s'.bookings ==> s'.bookings[id].status == CancelledByMentee
  {
  }

  /**
    No session was left to be held, and yet the mentor is blocked, and the mentee, who
    cancelled too late for a refund, gets the later session back in full.
   */
  lemma BlockedWithoutASession()
    ensures Initial(World()) && World().blocked == {} && CrashFree(World(), CancelledLate())
    ensures var s := Run(World(), CancelledLate());
            && MENTOR_USER in s.blocked && MENTEE in s.coins && s.coins[MENTEE] == 200.0
            && forall id :: id in s.bookings ==> s.bookings[id].status == CancelledByMentee
  {
    WorldInitial();
    TwoBookedFresh();
    CancelledLateReached();
    AfterCancelledLate(TwoBooked());
  }
}
