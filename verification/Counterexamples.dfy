/**
  Runs that show where the code does not keep what it might be expected to keep.  All of
  them start in one small world: two mentors at 200 coins per half hour, one of whom also
  books sessions, and two mentees.
 */
module Counterexamples {
  import opened Wrappers
  import opened Calendar
  import opened Money
  import opened Bookings
  import opened Exclusivity
  import opened BothRoles
  import opened PlatformLedger
  import Availability
  import Slots

  const MENTEE: Id := 5
  const OTHER: Id := 6
  const MENTOR_USER: Id := 7
  const SECOND_USER: Id := 8
  const MENTOR: Id := 1
  const SECOND: Id := 2
  const FIRST_BOOKING: Id := 9
  const NEXT_BOOKING: Id := 10
  const START: int := 1_000_000_000
  const HALF_HOUR: int := 1_800_000
  const END: int := START + HALF_HOUR

  function World(): State {
    State(map[],
          map[MENTOR := Mentor(MENTOR_USER, Some(200.0), 0, 0, None),
              SECOND := Mentor(SECOND_USER, Some(200.0), 0, 0, None)],
          map[MENTOR_USER := MENTOR, SECOND_USER := SECOND],
          map[MENTEE := 0.0, OTHER := 0.0, MENTOR_USER := 0.0, SECOND_USER := 0.0], [], 0, [], {})
  }

  lemma WorldInitial()
    ensures Initial(World())
  {
  }

  // ---- steps ----------------------------------------------------------------------------------

  /** The run ends in the state, and no step of it fails. */
  ghost predicate Reaches(ops: seq<Op>, s: State) {
    Run(World(), ops) == s && CrashFree(World(), ops)
  }

  lemma Next(ops: seq<Op>, s: State, op: Op)
    requires Reaches(ops, s) && !Perform(s, op).1.Crashed?
    ensures Reaches(ops + [op], Step(s, op))
  {
    assert (ops + [op])[..|ops|] == ops;
  }

  /** A paid session of half an hour. */
  function Session(mentor: Id, mentorUser: Id, mentee: Id, start: int): Booking {
    Booking(mentor, Some(mentorUser), mentee, start, start + HALF_HOUR, Confirmed, Coins, Paid, 200.0, None, None)
  }

  function Book(id: Id, mentor: Id, mentee: Id, start: int, now: int): Op {
    CreateOp(id, CreateInput(mentor, mentee, Some(start), Some(start + HALF_HOUR), Coins), now)
  }

  /** The state after a session of 200 coins was booked. */
  function Booked(s: State, id: Id, b: Booking): State
    requires b.menteeId in s.coins
  {
    s.(bookings := s.bookings[id := b],
       coins := s.coins[b.menteeId := s.coins[b.menteeId] - 200.0],
       coinTxs := s.coinTxs + [CoinTx(b.menteeId, -200.0, SessionSpend, Some(id))],
       platform := s.platform + 10_000,
       rows := s.rows + [Row(CoinBooking, id, 10_000)])
  }

  lemma BookStep(s: State, id: Id, mentor: Id, mentee: Id, start: int, now: int)
    requires id !in s.bookings && s.platform >= 0
    requires mentor in s.mentors && s.mentors[mentor].pricePer30Min == Some(200.0) && mentor != mentee
    requires mentee in s.coins && s.coins[mentee] >= 200.0 && start > now
    requires !HasBlockingOverlap(s, mentor, mentee, start, start + HALF_HOUR, None)
    requires !HasBookingConflict(s, mentee, start, start + HALF_HOUR, None)
    ensures var b := Session(mentor, s.mentors[mentor].userId, mentee, start);
            Perform(s, Book(id, mentor, mentee, start, now)) == (Booked(s, id, b), Done)
  {
    var i := Book(id, mentor, mentee, start, now).input;
    HalfHoursCost(200.0, start, 1);
    assert CreateError(s, i, now).None?;
    assert NewBooking(s.mentors[mentor], i) == Session(mentor, s.mentors[mentor].userId, mentee, start);
    PayStep(s, id, Session(mentor, s.mentors[mentor].userId, mentee, start));
  }

  lemma PayStep(s: State, id: Id, b: Booking)
    requires b.menteeId in s.coins && s.coins[b.menteeId] >= 200.0 && b.total == 200.0 && s.platform >= 0
    ensures PayWithCoins(s, id, b) == (Booked(s, id, b), Done)
  {
    assert CollectedMinor(200.0) == 10_000;
  }

  // ---- a booking that no other one concerns ------------------------------------------------------

  lemma FreeInEmpty(s: State, mentor: Id, mentee: Id, start: int, end: int)
    requires s.bookings == map[]
    ensures !HasBlockingOverlap(s, mentor, mentee, start, end, None) && !HasBookingConflict(s, mentee, start, end, None)
  {
  }

  lemma FreeBesides(s: State, id: Id, mentor: Id, mentee: Id, start: int, end: int)
    requires s.bookings.Keys == {id} && !(Live(s.bookings[id]) && Overlaps(s.bookings[id], start, end))
    ensures !HasBlockingOverlap(s, mentor, mentee, start, end, None) && !HasBookingConflict(s, mentee, start, end, None)
  {
  }

  // ---- the beginning of every run -------------------------------------------------------------------

  function TopUp400(user: Id): Op {
    TopUp(user, 400.0)
  }

  function TopUps(): seq<Op> {
    [TopUp400(MENTEE)] + [TopUp400(OTHER)] + [TopUp400(MENTOR_USER)]
  }

  function Purchased(user: Id): CoinTx {
    CoinTx(user, 400.0, Purchase, None)
  }

  function OneFunded(): State {
    World().(coins := map[MENTEE := 400.0, OTHER := 0.0, MENTOR_USER := 0.0, SECOND_USER := 0.0],
             coinTxs := [Purchased(MENTEE)])
  }

  function TwoFunded(): State {
    World().(coins := map[MENTEE := 400.0, OTHER := 400.0, MENTOR_USER := 0.0, SECOND_USER := 0.0],
             coinTxs := [Purchased(MENTEE)] + [Purchased(OTHER)])
  }

  function Funded(): State {
    World().(coins := map[MENTEE := 400.0, OTHER := 400.0, MENTOR_USER := 400.0, SECOND_USER := 0.0],
             coinTxs := [Purchased(MENTEE)] + [Purchased(OTHER)] + [Purchased(MENTOR_USER)])
  }

  /** A top-up of a user without coins. */
  lemma TopUpStep(s: State, user: Id, s': State)
    requires user in s.coins && s.coins[user] == 0.0
    requires s'.coins == s.coins[user := 400.0] && s'.coinTxs == s.coinTxs + [Purchased(user)]
    requires s' == s.(coins := s'.coins, coinTxs := s'.coinTxs)
    ensures Perform(s, TopUp400(user)) == (s', Done)
  {
  }

  lemma OneFundedReached()
    ensures Reaches([TopUp400(MENTEE)], OneFunded())
  {
    TopUpStep(World(), MENTEE, OneFunded());
    Next([], World(), TopUp400(MENTEE));
    assert [] + [TopUp400(MENTEE)] == [TopUp400(MENTEE)];
  }

  lemma TwoFundedReached()
    ensures Reaches([TopUp400(MENTEE)] + [TopUp400(OTHER)], TwoFunded())
  {
    OneFundedReached();
    TopUpStep(OneFunded(), OTHER, TwoFunded());
    Next([TopUp400(MENTEE)], OneFunded(), TopUp400(OTHER));
  }

  lemma FundedReached()
    ensures Reaches(TopUps(), Funded())
  {
    TwoFundedReached();
    TopUpStep(TwoFunded(), MENTOR_USER, Funded());
    Next([TopUp400(MENTEE)] + [TopUp400(OTHER)], TwoFunded(), TopUp400(MENTOR_USER));
  }

  /** The guard against own sessions compares a user with a mentor profile, so a mentor can book oneself. */
  lemma OwnSessionBooked()
    ensures Initial(World())
    ensures var (s, result) := Perform(Run(World(), TopUps()), Book(FIRST_BOOKING, MENTOR, MENTOR_USER, START, 0));
            && result.Done? && FIRST_BOOKING in s.bookings
            && s.bookings[FIRST_BOOKING].mentorUserId == Some(s.bookings[FIRST_BOOKING].menteeId)
  {
    WorldInitial();
    FundedReached();
    FreeInEmpty(Funded(), MENTOR, MENTOR_USER, START, END);
    BookStep(Funded(), FIRST_BOOKING, MENTOR, MENTOR_USER, START, 0);
  }

  function FirstBook(): Op {
    Book(FIRST_BOOKING, MENTOR, MENTEE, START, 0)
  }

  function FirstSession(): Booking {
    Session(MENTOR, MENTOR_USER, MENTEE, START)
  }

  function OneBooked(): State {
    Booked(Funded(), FIRST_BOOKING, FirstSession())
  }

  lemma OneBookedReached()
    ensures Reaches(TopUps() + [FirstBook()], OneBooked())
  {
    FundedReached();
    FreeInEmpty(Funded(), MENTOR, MENTEE, START, END);
    BookStep(Funded(), FIRST_BOOKING, MENTOR, MENTEE, START, 0);
    Next(TopUps(), Funded(), FirstBook());
  }

  /** The mentor cancels the first session long before it starts. */
  function MentorCancels(): Op {
    CancelOp(FIRST_BOOKING, MENTOR_USER, true, 0)
  }

  function Cancelled200(s: State): State
    requires MENTEE in s.coins
  {
    s.(bookings := s.bookings[FIRST_BOOKING := FirstSession().(status := CancelledByMentor)],
       coins := s.coins[MENTEE := s.coins[MENTEE] + 200.0],
       coinTxs := s.coinTxs + [CoinTx(MENTEE, 200.0, Refund, Some(FIRST_BOOKING))],
       platform := s.platform - 10_000,
       rows := s.rows + [Row(RefundRow, FIRST_BOOKING, -10_000)])
  }

  lemma CancelStep(s: State)
    requires FIRST_BOOKING in s.bookings && s.bookings[FIRST_BOOKING] == FirstSession()
    requires MENTOR_USER in s.mentorOf && s.mentorOf[MENTOR_USER] == MENTOR
    requires MENTEE in s.coins && s.platform >= 10_000 && !HasRefundRow(s, FIRST_BOOKING)
    ensures Perform(s, MentorCancels()) == (Cancelled200(s), Done)
  {
    assert RefundDue(FirstSession(), true, 0) == 200;
    RefundToMinorExact(200);
  }

  // ---- a cancelled session is paid out, twice -----------------------------------------------------------

  /** A booked session is cancelled by the mentor, refunded, and then joined all the same. */
  function CancelledButJoined(): seq<Op> {
    TopUps() + [FirstBook()] + [MentorCancels()] + [JoinOp(FIRST_BOOKING, MENTOR_USER, START)]
  }

  function AfterCancel(): State {
    Cancelled200(OneBooked())
  }

  function AfterJoin(): State {
    AfterCancel().(bookings :=
      map[FIRST_BOOKING := FirstSession().(status := CancelledByMentor, mentorJoinedAt := Some(START))])
  }

  lemma AfterCancelReached()
    ensures Reaches(TopUps() + [FirstBook()] + [MentorCancels()], AfterCancel())
  {
    OneBookedReached();
    CancelStep(OneBooked());
    Next(TopUps() + [FirstBook()], OneBooked(), MentorCancels());
  }

  lemma JoinStep()
    ensures Perform(AfterCancel(), JoinOp(FIRST_BOOKING, MENTOR_USER, START)) == (AfterJoin(), Done)
  {
    assert Step(AfterCancel(), JoinOp(FIRST_BOOKING, MENTOR_USER, START)) == AfterJoin();
  }

  lemma AfterJoinReached()
    ensures Reaches(CancelledButJoined(), AfterJoin())
  {
    AfterCancelReached();
    JoinStep();
    Next(TopUps() + [FirstBook()] + [MentorCancels()], AfterCancel(), JoinOp(FIRST_BOOKING, MENTOR_USER, START));
  }

  /** One attempt to settle the joined session in a wallet that is empty or overdrawn. */
  lemma SettleOverdrawn(s: State, now: int)
    requires FIRST_BOOKING in s.bookings && s.bookings[FIRST_BOOKING] == AfterJoin().bookings[FIRST_BOOKING]
    requires MENTOR_USER in s.coins && s.platform <= 0
    ensures Settle(s, FIRST_BOOKING, now).1.Crashed?
    ensures var after := Settle(s, FIRST_BOOKING, now).0;
            && after.bookings == s.bookings && after.platform <= 0
            && MENTOR_USER in after.coins && after.coins[MENTOR_USER] == s.coins[MENTOR_USER] + 170.0
  {
    var a := Calculate(Coins, 200.0);
    assert a.mentorCoins == 170 && a.mentorPayoutMinor == 8_500;
  }

  lemma SettleTwiceOverdrawn(s: State, t1: int, t2: int)
    requires FIRST_BOOKING in s.bookings && s.bookings[FIRST_BOOKING] == AfterJoin().bookings[FIRST_BOOKING]
    requires MENTOR_USER in s.coins && s.platform <= 0
    ensures Settle(s, FIRST_BOOKING, t1).1.Crashed?
    ensures var twice := Settle(Settle(s, FIRST_BOOKING, t1).0, FIRST_BOOKING, t2).0;
            MENTOR_USER in twice.coins && twice.coins[MENTOR_USER] == s.coins[MENTOR_USER] + 340.0
  {
    SettleOverdrawn(s, t1);
    SettleOverdrawn(Settle(s, FIRST_BOOKING, t1).0, t2);
  }

  /**
    Settlement does not look at cancellation.  In this run the settlement cannot be covered:
    it credits the mentor, then fails and leaves the booking unsettled, so the retry credits
    the mentor again, 170 coins each time.
   */
  lemma CancellationDefeatsAtMostOnce(t1: int, t2: int)
    ensures Initial(World())
    ensures var s := Run(World(), CancelledButJoined());
            var twice := Settle(Settle(s, FIRST_BOOKING, t1).0, FIRST_BOOKING, t2).0;
            && MENTOR_USER in s.coins && MENTOR_USER in twice.coins
            && twice.coins[MENTOR_USER] == s.coins[MENTOR_USER] + 340.0
  {
    WorldInitial();
    AfterJoinReached();
    SettleTwiceOverdrawn(AfterJoin(), t1, t2);
  }

  // ---- a mentor who is a mentee at the same time ----------------------------------------------------------

  /** The user behind the first mentor books the second one. */
  function MentorBooks(): Op {
    Book(FIRST_BOOKING, SECOND, MENTOR_USER, START, 0)
  }

  function MentorBooked(): State {
    Booked(Funded(), FIRST_BOOKING, Session(SECOND, SECOND_USER, MENTOR_USER, START))
  }

  lemma MentorBookedReached()
    ensures Reaches(TopUps() + [MentorBooks()], MentorBooked())
  {
    FundedReached();
    FreeInEmpty(Funded(), SECOND, MENTOR_USER, START, END);
    BookStep(Funded(), FIRST_BOOKING, SECOND, MENTOR_USER, START, 0);
    Next(TopUps(), Funded(), MentorBooks());
  }

  function MenteeBooks(): Op {
    Book(NEXT_BOOKING, MENTOR, MENTEE, START, 0)
  }

  lemma MenteeBooksStep()
    ensures Perform(MentorBooked(), MenteeBooks())
         == (Booked(MentorBooked(), NEXT_BOOKING, Session(MENTOR, MENTOR_USER, MENTEE, START)), Done)
  {
    var s := MentorBooked();
    assert FindOverlapping(s.bookings, MENTOR, START, END) == {};
    assert FindOverlappingForUser(s.bookings, MENTEE, MentorOf(s, MENTEE), START, END) == {};
    BookStep(s, NEXT_BOOKING, MENTOR, MENTEE, START, 0);
  }

  /**
    The user behind the first mentor has booked a session as a mentee; a mentee then books
    that mentor for the same time, and the booking is accepted.
   */
  lemma MentorBookedInBothRoles()
    ensures Initial(World())
    ensures var s := Run(World(), TopUps() + [MentorBooks()] + [MenteeBooks()]);
            && FIRST_BOOKING in s.bookings && NEXT_BOOKING in s.bookings
            && Live(s.bookings[FIRST_BOOKING]) && Live(s.bookings[NEXT_BOOKING])
            && Crosses(s.mentorOf, s.bookings[FIRST_BOOKING], s.bookings[NEXT_BOOKING])
            && !Apart(s.bookings[FIRST_BOOKING], s.bookings[NEXT_BOOKING])
  {
    WorldInitial();
    MentorBookedReached();
    MenteeBooksStep();
    Next(TopUps() + [MentorBooks()], MentorBooked(), MenteeBooks());
  }

  lemma BusyMentorRefused()
    ensures Perform(OneBooked(), Book(NEXT_BOOKING, SECOND, MENTOR_USER, START, 0)).1 == Rejected(MenteeBusy)
  {
    var s := OneBooked();
    assert FIRST_BOOKING in FindOverlappingForUser(s.bookings, MENTOR_USER, MentorOf(s, MENTOR_USER), START, END);
  }

  /** In the opposite order the same two bookings are refused. */
  lemma OppositeOrderRefused()
    ensures var s := Run(World(), TopUps() + [FirstBook()]);
            && FIRST_BOOKING in s.bookings
            && Perform(s, Book(NEXT_BOOKING, SECOND, MENTOR_USER, START, 0)).1 == Rejected(MenteeBusy)
  {
    OneBookedReached();
    BusyMentorRefused();
  }

  // ---- a session that is completed before it ends -----------------------------------------------------------

  function AlmostOver(): seq<Op> {
    TopUps() + [FirstBook()] + [JoinOp(FIRST_BOOKING, MENTOR_USER, START)]
    + [TerminateOp(FIRST_BOOKING, MENTOR_USER, END - ONE_MINUTE)]
  }

  function UnderWayState(): State {
    OneBooked().(bookings :=
      map[FIRST_BOOKING := FirstSession().(status := Started, mentorJoinedAt := Some(START))])
  }

  function CompletedState(): State {
    UnderWayState().(
      bookings := map[FIRST_BOOKING := FirstSession().(status := Completed, mentorJoinedAt := Some(START))],
      mentors := OneBooked().mentors[
        MENTOR := OneBooked().mentors[MENTOR].(totalSessions := 1, lastSessionAt := Some(END))])
  }

  lemma ArriveStep()
    ensures Perform(OneBooked(), JoinOp(FIRST_BOOKING, MENTOR_USER, START)) == (UnderWayState(), Done)
  {
    assert Step(OneBooked(), JoinOp(FIRST_BOOKING, MENTOR_USER, START)) == UnderWayState();
  }

  lemma EndStep()
    ensures Perform(UnderWayState(), TerminateOp(FIRST_BOOKING, MENTOR_USER, END - ONE_MINUTE))
         == (CompletedState(), Done)
  {
    assert Step(UnderWayState(), TerminateOp(FIRST_BOOKING, MENTOR_USER, END - ONE_MINUTE)) == CompletedState();
  }

  lemma CompletedReached()
    ensures Reaches(AlmostOver(), CompletedState())
  {
    OneBookedReached();
    ArriveStep();
    Next(TopUps() + [FirstBook()], OneBooked(), JoinOp(FIRST_BOOKING, MENTOR_USER, START));
    EndStep();
    Next(TopUps() + [FirstBook()] + [JoinOp(FIRST_BOOKING, MENTOR_USER, START)], UnderWayState(),
         TerminateOp(FIRST_BOOKING, MENTOR_USER, END - ONE_MINUTE));
  }

  /** Another mentee books the last half minute of the session, which was completed a minute early. */
  function BookLastMinute(): Op {
    Book(NEXT_BOOKING, MENTOR, OTHER, END - 30_000, END - ONE_MINUTE)
  }

  lemma LastMinuteStep()
    ensures Perform(CompletedState(), BookLastMinute())
         == (Booked(CompletedState(), NEXT_BOOKING, Session(MENTOR, MENTOR_USER, OTHER, END - 30_000)), Done)
  {
    FreeBesides(CompletedState(), FIRST_BOOKING, MENTOR, OTHER, END - 30_000, END - 30_000 + HALF_HOUR);
    BookStep(CompletedState(), NEXT_BOOKING, MENTOR, OTHER, END - 30_000, END - ONE_MINUTE);
  }

  /** Two paid sessions of one mentor overlap, because the overlap query does not see the completed one. */
  lemma CompletedSessionOverlapped()
    ensures Initial(World())
    ensures var s := Run(World(), AlmostOver());
            && HeldExclusive(s.bookings)
            && Perform(s, BookLastMinute()).1.Done?
            && !HeldExclusive(Step(s, BookLastMinute()).bookings)
  {
    WorldInitial();
    CompletedReached();
    LastMinuteStep();
    var after := Step(CompletedState(), BookLastMinute()).bookings;
    assert Held(after[FIRST_BOOKING]) && Held(after[NEXT_BOOKING]);
    assert !Apart(after[FIRST_BOOKING], after[NEXT_BOOKING]);
  }

  // ---- an offered slot before half past five -------------------------------------------------------------------

  /** Mondays from 04:00 to 06:00, throughout January 2026. */
  function EarlyHours(): (r: Availability.Rule)
    ensures ToMinutes(r.startTime) == 240 && ToMinutes(r.endTime) == 360
  {
    Availability.Rule(MENTOR, {Availability.Monday}, Availability.Clock(240), Availability.Clock(360),
                      Date(2026, 1, 1), Date(2026, 1, 31), [], 60, 10, true)
  }

  function FirstMonday(): Slots.SlotDate {
    Date(2026, 1, 5)
  }

  function EarlySlot(): Slots.Slot {
    Slots.Slot(240, 300)
  }

  lemma EarlyHoursValid()
    ensures Availability.ValidRule(EarlyHours())
  {
    Availability.NoBreaksAccepted(EarlyHours().startTime, EarlyHours().endTime);
  }

  lemma EarlyHoursStored(id: Id)
    ensures Availability.Run([Availability.CreateOp(id, EarlyHours())]) == map[id := EarlyHours()]
  {
    EarlyHoursValid();
    Availability.StoreFirst(id, EarlyHours());
  }

  lemma JanuaryDay(day: nat)
    ensures DayNumber(Date(2026, 1, day)) == 20_453 + day
  {
    assert DaysBeforeYear(2026) == 739_982;
  }

  /** A rule for the Mondays of January 2026 applies on the fifth and not on the fourth. */
  lemma JanuaryMondays(r: Availability.Rule)
    requires r.days == {Availability.Monday} && r.startDate == Date(2026, 1, 1) && r.endDate == Date(2026, 1, 31)
    ensures Availability.AppliesOn(r, 20_458) && !Availability.AppliesOn(r, 20_457)
  {
    JanuaryDay(1);
    JanuaryDay(31);
    assert Availability.Weekday(20_458) == Availability.Monday && Availability.Weekday(20_457) == Availability.Sunday;
  }

  lemma FirstMondayIsMonday()
    ensures DayNumber(FirstMonday()) == 20_458
    ensures Availability.AppliesOn(EarlyHours(), 20_458) && !Availability.AppliesOn(EarlyHours(), 20_457)
  {
    JanuaryDay(5);
    JanuaryMondays(EarlyHours());
  }

  lemma EarlySlotOffered()
    ensures EarlySlot() in Slots.OfferedSlots(EarlyHours(), FirstMonday(), [], 0)
  {
    EarlySlotFree(EarlyHours());
    Slots.OfferedExactly(EarlyHours(), FirstMonday(), [], 0, EarlySlot());
    assert Slots.OnGrid(EarlyHours(), 0, 240);
  }

  lemma EarlySlotFree(r: Availability.Rule)
    requires r.breakTimes == []
    ensures Slots.Free(r, FirstMonday(), [], 0, 240)
  {
    FirstMondayIsMonday();
    DayAsReadExactly(FirstMonday());
    assert IstToUtc(FirstMonday(), 240) == 20_458 * DAY_MS + 240 * MINUTE_MS - IST_OFFSET_MS;
  }

  /** The only rule of the mentor offers a slot that a reschedule to it does not find. */
  lemma EarlySlotNotAccepted(id: Id)
    ensures var rules := Availability.Run([Availability.CreateOp(id, EarlyHours())]);
            && id in rules && rules[id] == EarlyHours()
            && EarlySlot() in Slots.OfferedSlots(EarlyHours(), FirstMonday(), [], 0)
            && !Slots.WithinAvailability(rules, MENTOR, IstToUtc(FirstMonday(), 240), IstToUtc(FirstMonday(), 300))
  {
    EarlyHoursStored(id);
    EarlySlotOffered();
    FirstMondayIsMonday();
    DayAsReadExactly(FirstMonday());
    Slots.WithinAvailabilityExactly(map[id := EarlyHours()], MENTOR, FirstMonday(), EarlySlot());
  }
}
