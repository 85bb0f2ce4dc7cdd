/**
  Runs that show what a rescheduling does not check: that the new session ends after it
  starts, that it ends on the same day, and that it is as long as the one that was paid.
 */
module MovedSessions {
  import opened Wrappers
  import opened Calendar
  import opened Money
  import opened Bookings
  import opened Agreements
  import opened Counterexamples
  import Availability
  import Slots
  import Windows

  /** The mentee moves the first session, at time 0. */
  function Move(from: int, to: int, rules: Availability.Rules): Op {
    RescheduleOp(FIRST_BOOKING, MENTEE, Some(from), Some(to), 0, rules)
  }

  function Moved(from: int, to: int): State {
    PutBooking(OneBooked(), FIRST_BOOKING, FirstSession().(start := from, end := to))
  }

  lemma OnlyBookingMovesFreely(s: State, id: Id, mentor: Id, mentee: Id, from: int, to: int)
    requires s.bookings.Keys == {id}
    ensures !HasBlockingOverlap(s, mentor, mentee, from, to, Some(id))
    ensures !HasBookingConflict(s, mentee, from, to, Some(id))
  {
  }

  /** With no other session around, the availability test decides. */
  lemma MoveOnlyBooking(s: State, rules: Availability.Rules, from: int, to: int)
    requires s.bookings.Keys == {FIRST_BOOKING} && s.bookings[FIRST_BOOKING] == FirstSession() && from > HOURS_24
    requires Slots.WithinAvailability(rules, MENTOR, from, to)
    ensures Perform(s, Move(from, to, rules))
         == (PutBooking(s, FIRST_BOOKING, FirstSession().(start := from, end := to)), Done)
  {
    OnlyBookingMovesFreely(s, FIRST_BOOKING, MENTOR, MENTEE, from, to);
    assert RescheduleError(s, FIRST_BOOKING, MENTEE, Some(from), Some(to), 0, rules).None?;
  }

  lemma MoveStep(rules: Availability.Rules, id: Availability.RuleId, from: int, to: int)
    requires id in Slots.FindActive(rules, MENTOR, from) && Slots.FitsRule(rules[id], from, to) && from > HOURS_24
    ensures Perform(OneBooked(), Move(from, to, rules)) == (Moved(from, to), Done)
  {
    assert OneBooked().bookings.Keys == {FIRST_BOOKING};
    MoveOnlyBooking(OneBooked(), rules, from, to);
  }

  lemma MovedReached(rules: Availability.Rules, id: Availability.RuleId, from: int, to: int)
    requires id in Slots.FindActive(rules, MENTOR, from) && Slots.FitsRule(rules[id], from, to) && from > HOURS_24
    ensures Reaches(TopUps() + [FirstBook()] + [Move(from, to, rules)], Moved(from, to))
  {
    OneBookedReached();
    MoveStep(rules, id, from, to);
    Next(TopUps() + [FirstBook()], OneBooked(), Move(from, to, rules));
  }

  /** Every valid rule that is found at its closing lets a session end before it starts. */
  lemma InvertedReschedule(rules: Availability.Rules, id: Availability.RuleId, day: int)
    requires id in rules && Availability.ValidRule(rules[id])
    requires var from := Windows.AtIst(day, ToMinutes(rules[id].endTime));
             id in Slots.FindActive(rules, MENTOR, from) && from > HOURS_24
    ensures var from, to := Windows.AtIst(day, ToMinutes(rules[id].endTime)),
                            Windows.AtIst(day, ToMinutes(rules[id].startTime));
            && to < from && Perform(OneBooked(), Move(from, to, rules)) == (Moved(from, to), Done)
            && Inverts(OneBooked(), Move(from, to, rules), FIRST_BOOKING)
  {
    var from, to := Windows.AtIst(day, ToMinutes(rules[id].endTime)),
                    Windows.AtIst(day, ToMinutes(rules[id].startTime));
    Windows.InvertedSessionFits(rules[id], day);
    MoveStep(rules, id, from, to);
  }

  /** Every rule without breaks that is found at its opening lets a session run until its closing on the next day. */
  lemma OvernightReschedule(rules: Availability.Rules, id: Availability.RuleId, day: int)
    requires id in rules && rules[id].breakTimes == []
    requires var from := Windows.AtIst(day, ToMinutes(rules[id].startTime));
             id in Slots.FindActive(rules, MENTOR, from) && from > HOURS_24
    ensures var from, to := Windows.AtIst(day, ToMinutes(rules[id].startTime)),
                            Windows.AtIst(day + 1, ToMinutes(rules[id].endTime));
            && Perform(OneBooked(), Move(from, to, rules)) == (Moved(from, to), Done)
            && !Windows.OpenFor(rules[id], from, to)
  {
    var from, to := Windows.AtIst(day, ToMinutes(rules[id].startTime)),
                    Windows.AtIst(day + 1, ToMinutes(rules[id].endTime));
    Windows.OvernightSessionFits(rules[id], day);
    MoveStep(rules, id, from, to);
  }

  // ---- an earning before the session starts -------------------------------------------------------

  const OPENING: int := 1_767_583_800_000
  const CLOSING: int := 1_767_612_600_000

  function Office(): Availability.Rules {
    map[0 := Availability.OfficeHours(MENTOR)]
  }

  /** Monday, 5 January 2026. */
  lemma OfficeOpensOnMonday()
    ensures Availability.AppliesOn(Availability.OfficeHours(MENTOR), 20_458)
  {
    JanuaryMondays(Availability.OfficeHours(MENTOR));
  }

  /** The office hours are what a checked run stores, and they are found on that Monday. */
  lemma OfficeFound()
    ensures Office() == Availability.Run([Availability.CreateOp(0, Availability.OfficeHours(MENTOR))])
    ensures Availability.ValidRule(Office()[0])
    ensures 0 in Slots.FindActive(Office(), MENTOR, OPENING) && 0 in Slots.FindActive(Office(), MENTOR, CLOSING)
  {
    Availability.OfficeHoursStored(MENTOR, 0);
    Availability.OfficeHoursValid(MENTOR);
    OfficeOpensOnMonday();
    assert UtcDay(OPENING) == 20_458 && UtcDay(CLOSING) == 20_458;
  }

  function Inverted(): State {
    Moved(CLOSING, OPENING)
  }

  lemma InvertedReached()
    ensures Reaches(TopUps() + [FirstBook()] + [Move(CLOSING, OPENING, Office())], Inverted())
  {
    OfficeFound();
    OfficeTimes();
    Windows.InvertedSessionFits(Office()[0], 20_458);
    MovedReached(Office(), 0, CLOSING, OPENING);
  }

  lemma OfficeTimes()
    ensures Windows.AtIst(20_458, ToMinutes(Office()[0].startTime)) == OPENING
    ensures Windows.AtIst(20_458, ToMinutes(Office()[0].endTime)) == CLOSING
  {
  }

  function EndsInverted(): Op {
    TerminateOp(FIRST_BOOKING, MENTOR_USER, OPENING - ONE_MINUTE)
  }

  function EndedInverted(): State {
    Complete(Inverted(), FIRST_BOOKING)
  }

  lemma EndedInvertedReached()
    ensures Reaches(TopUps() + [FirstBook()] + [Move(CLOSING, OPENING, Office())] + [EndsInverted()], EndedInverted())
  {
    InvertedReached();
    EndsInvertedStep(Inverted());
    Next(TopUps() + [FirstBook()] + [Move(CLOSING, OPENING, Office())], Inverted(), EndsInverted());
  }

  lemma EndsInvertedStep(s: State)
    requires FIRST_BOOKING in s.bookings
    requires s.bookings[FIRST_BOOKING] == FirstSession().(start := CLOSING, end := OPENING)
    ensures Perform(s, EndsInverted()) == (Complete(s, FIRST_BOOKING), Done)
  {
  }

  function Earned(): CoinTx {
    CoinTx(MENTOR_USER, 170.0, SessionEarning, Some(FIRST_BOOKING))
  }

  /** Settling a completed session of 200 coins pays the mentor. */
  lemma PaidStep(s: State, now: int)
    requires FIRST_BOOKING in s.bookings && s.platform >= 10_000 && MENTOR_USER in s.coins
    requires s.bookings[FIRST_BOOKING] == FirstSession().(start := CLOSING, end := OPENING, status := Completed)
    ensures var (s', result) := Perform(s, SettleOp(FIRST_BOOKING, now));
            && result.Done? && s'.coinTxs == s.coinTxs + [Earned()]
            && s'.bookings == s.bookings[FIRST_BOOKING := s.bookings[FIRST_BOOKING].(settledAt := Some(now))]
  {
    var a := Calculate(Coins, 200.0);
    assert a.mentorCoins == 170 && a.mentorPayoutMinor == 8_500;
  }

  function PaidBeforeStart(): seq<Op> {
    TopUps() + [FirstBook()] + [Move(CLOSING, OPENING, Office())] + [EndsInverted()]
    + [SettleOp(FIRST_BOOKING, OPENING - ONE_MINUTE)]
  }

  lemma EndedInvertedState()
    ensures var s := EndedInverted();
            && FIRST_BOOKING in s.bookings && s.platform == 10_000 && MENTOR_USER in s.coins
            && s.bookings[FIRST_BOOKING] == FirstSession().(start := CLOSING, end := OPENING, status := Completed)
  {
  }

  lemma PaidReached()
    ensures var s := Run(World(), PaidBeforeStart());
            Earned() in s.coinTxs && FIRST_BOOKING in s.bookings && s.bookings[FIRST_BOOKING].start == CLOSING
  {
    EndedInvertedReached();
    EndedInvertedState();
    PaidStep(EndedInverted(), OPENING - ONE_MINUTE);
    Next(TopUps() + [FirstBook()] + [Move(CLOSING, OPENING, Office())] + [EndsInverted()], EndedInverted(),
         SettleOp(FIRST_BOOKING, OPENING - ONE_MINUTE));
    var txs := Step(EndedInverted(), SettleOp(FIRST_BOOKING, OPENING - ONE_MINUTE)).coinTxs;
    assert txs[|txs| - 1] == Earned();
  }

  lemma NobodyComes(op: Op, b: Booking)
    requires op in PaidBeforeStart() && b.start == CLOSING
    ensures !ComesInTime(op, FIRST_BOOKING, b)
  {
    assert op == EndsInverted() || !(op.JoinOp? || op.TerminateOp?);
  }

  /**
    The session is moved so that it ends in the morning and starts in the evening.  The mentor
    ends it in the morning and is paid, and has come eight hours before its start.
   */
  lemma EarnedBeforeStart()
    ensures Initial(World())
    ensures var s := Run(World(), PaidBeforeStart());
            && Earned() in s.coinTxs && FIRST_BOOKING in s.bookings
            && forall op :: op in PaidBeforeStart() ==> !ComesInTime(op, FIRST_BOOKING, s.bookings[FIRST_BOOKING])
  {
    WorldInitial();
    PaidReached();
    forall op | op in PaidBeforeStart()
      ensures !ComesInTime(op, FIRST_BOOKING, Run(World(), PaidBeforeStart()).bookings[FIRST_BOOKING])
    {
      NobodyComes(op, Run(World(), PaidBeforeStart()).bookings[FIRST_BOOKING]);
    }
  }

  // ---- a longer session for the same price ------------------------------------------------------------

  const FOUR_HOURS: int := 14_400_000

  /** Any session that starts at the opening and ends with the morning fits the office hours. */
  lemma MorningFits(from: int, to: int)
    requires IstMinute(from) == 540 && IstMinute(to) == 780
    ensures Slots.FitsRule(Availability.OfficeHours(MENTOR), from, to)
  {
    Slots.ToIstHHMMIsTime(from);
    Slots.ToIstHHMMIsTime(to);
  }

  lemma MorningReached()
    ensures Reaches(TopUps() + [FirstBook()] + [Move(OPENING, OPENING + FOUR_HOURS, Office())],
                    Moved(OPENING, OPENING + FOUR_HOURS))
  {
    OfficeFound();
    MorningMinutes();
    MorningFits(OPENING, OPENING + FOUR_HOURS);
    MovedReached(Office(), 0, OPENING, OPENING + FOUR_HOURS);
  }

  lemma MorningMinutes()
    ensures IstMinute(OPENING) == 540 && IstMinute(OPENING + FOUR_HOURS) == 780
  {
  }

  lemma FourHoursCost()
    ensures PriceOfLength(Coins, 200.0, FOUR_HOURS) == 1_600.0
  {
    HalfHoursCost(200.0, 0, 8);
  }

  /** Half an hour is paid and moved to four hours, and the amount stays 200 instead of 1,600 coins. */
  lemma LongerForTheSamePrice()
    ensures Initial(World())
    ensures var s := Run(World(), TopUps() + [FirstBook()] + [Move(OPENING, OPENING + FOUR_HOURS, Office())]);
            && FIRST_BOOKING in s.bookings && s.bookings[FIRST_BOOKING].status == Confirmed
            && s.bookings[FIRST_BOOKING].total == 200.0
            && s.bookings[FIRST_BOOKING].end - s.bookings[FIRST_BOOKING].start == FOUR_HOURS
    ensures PriceOfLength(Coins, 200.0, FOUR_HOURS) == 1_600.0
  {
    WorldInitial();
    MorningReached();
    FourHoursCost();
  }
}
