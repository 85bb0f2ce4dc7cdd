/**
  The booking use cases as steps over the stored state: bookings, mentors, coin balances
  with their ledger, and the platform wallet with its ledger.  A step either completes, or
  is rejected and leaves the state alone, or crashes: an exception is thrown after part of
  its writes have been made.
 */
module Bookings {
  import opened Wrappers
  import opened Money
  import Availability
  import Slots

  type Id = nat

  datatype Status =
    | CancelledByMentee | CancelledByMentor | Confirmed | Pending | SlotTaken | Started | Completed

  datatype PaymentStatus = PaymentPending | Paid | PaymentFailed | Refunded

  datatype Booking = Booking(
    mentorId: Id, mentorUserId: Option<Id>, menteeId: Id, start: int, end: int,
    status: Status, paymentType: PaymentType, paymentStatus: PaymentStatus, total: real,
    mentorJoinedAt: Option<int>, settledAt: Option<int>)

  datatype Mentor = Mentor(
    userId: Id, pricePer30Min: Option<real>, skippedSessions: nat, totalSessions: nat, lastSessionAt: Option<int>)

  datatype CoinKind = Purchase | SessionSpend | SessionEarning | Refund

  datatype CoinTx = CoinTx(user: Id, amount: real, kind: CoinKind, booking: Option<Id>)

  /** The provider ids "coin_booking_...", "session_payout_..." and "refund_...". */
  datatype RowKind = CoinBooking | SessionPayout | RefundRow

  /** A platform-owned payment transaction. */
  datatype Row = Row(kind: RowKind, booking: Id, amount: int)

  datatype State = State(
    bookings: map<Id, Booking>,
    mentors: map<Id, Mentor>,
    mentorOf: map<Id, Id>,
    coins: map<Id, real>,
    coinTxs: seq<CoinTx>,
    platform: int,
    rows: seq<Row>,
    blocked: set<Id>)

  datatype Error =
    | OwnSession | MentorNotFound | InvalidTimeRange | InThePast | SlotNotAvailable | MenteeBusy
    | UserNotFound | InsufficientBalance | InvalidTransaction
    | BookingNotFound | Unauthorized | NotConfirmed | TooLateToReschedule | NewStartTooSoon | OutsideAvailability
    | AlreadyCancelled | PaymentIsPending | NotCancellable | TooEarly

  datatype Result = Done | Rejected(error: Error) | Crashed

  // ---- queries ---------------------------------------------------------------------------

  /** The bookings that the overlap queries look at. */
  predicate Live(b: Booking) {
    (b.status == Pending || b.status == Confirmed || b.status == Started) && b.paymentStatus != PaymentFailed
  }

  predicate Overlaps(b: Booking, start: int, end: int) {
    b.start < end && b.end > start
  }

  /** `findOverlapping`. */
  function FindOverlapping(bookings: map<Id, Booking>, mentor: Id, start: int, end: int): set<Id> {
    set id | id in bookings && bookings[id].mentorId == mentor && Live(bookings[id]) && Overlaps(bookings[id], start, end)
  }

  /** `findOverlappingForUser`. */
  function FindOverlappingForUser(
    bookings: map<Id, Booking>, user: Id, mentor: Option<Id>, start: int, end: int): set<Id>
  {
    set id | id in bookings
             && (bookings[id].menteeId == user || (mentor.Some? && bookings[id].mentorId == mentor.value))
             && Live(bookings[id]) && Overlaps(bookings[id], start, end)
  }

  function MentorOf(s: State, user: Id): Option<Id> {
    if user in s.mentorOf then Some(s.mentorOf[user]) else None
  }

  /** `checkBookingConflict`. */
  predicate HasBookingConflict(s: State, user: Id, start: int, end: int, exclude: Option<Id>) {
    var mentor := MentorOf(s, user);
    exists id | id in FindOverlappingForUser(s.bookings, user, mentor, start, end) ::
      && exclude != Some(id)
      && (s.bookings[id].paymentStatus == Paid || s.bookings[id].menteeId == user
          || (mentor.Some? && s.bookings[id].mentorId == mentor.value))
  }

  /** Another booking of the mentor blocks the slot when it is paid or belongs to the same mentee. */
  predicate HasBlockingOverlap(s: State, mentor: Id, mentee: Id, start: int, end: int, exclude: Option<Id>) {
    exists id | id in FindOverlapping(s.bookings, mentor, start, end) ::
      exclude != Some(id) && (s.bookings[id].paymentStatus == Paid || s.bookings[id].menteeId == mentee)
  }

  // ---- wallets -----------------------------------------------------------------------------

  /** A write sequence that may have been cut short by an exception. */
  datatype Attempt = Attempt(state: State, ok: bool)

  function AddCoins(s: State, user: Id, amount: real, kind: CoinKind, booking: Option<Id>): State
    requires user in s.coins
  {
    s.(coins := s.coins[user := s.coins[user] + amount],
       coinTxs := s.coinTxs + [CoinTx(user, amount, kind, booking)])
  }

  /** `WalletService.credit`; a transaction of amount 0 cannot be constructed. */
  function Credit(s: State, user: Id, amount: real, kind: CoinKind, booking: Option<Id>): Attempt {
    if user !in s.coins || amount == 0.0 then Attempt(s, false)
    else Attempt(AddCoins(s, user, amount, kind, booking), true)
  }

  /** Why `WalletService.debit` throws, if it does; it then changes nothing. */
  function DebitError(s: State, user: Id, amount: real): Option<Error> {
    if user !in s.coins then Some(UserNotFound)
    else if s.coins[user] < amount then Some(InsufficientBalance)
    else if amount == 0.0 then Some(InvalidTransaction)
    else None
  }

  /** `incrementBalance` of the platform wallet: a negative balance is stored, then refused as an entity. */
  function AddPlatform(s: State, amount: int): Attempt {
    Attempt(s.(platform := s.platform + amount), s.platform + amount >= 0)
  }

  function AddRow(s: State, kind: RowKind, booking: Id, amount: int): State {
    s.(rows := s.rows + [Row(kind, booking, amount)])
  }

  /** Balance first, then the ledger row. */
  function MovePlatform(s: State, kind: RowKind, booking: Id, amount: int): Attempt {
    var moved := AddPlatform(s, amount);
    if moved.ok then Attempt(AddRow(moved.state, kind, booking, amount), true) else moved
  }

  /** `MentorSessionPayoutService.creditMentor`. */
  function CreditMentor(s: State, id: Id, user: Id, mentorCoins: int, payoutMinor: int): (a: Attempt)
    ensures a.state.bookings == s.bookings && a.state.mentors == s.mentors && a.state.mentorOf == s.mentorOf
  {
    var credited :=
      if mentorCoins > 0 then Credit(s, user, mentorCoins as real, SessionEarning, Some(id)) else Attempt(s, true);
    if credited.ok && payoutMinor > 0 then MovePlatform(credited.state, SessionPayout, id, -payoutMinor) else credited
  }

  predicate HasRefundRow(s: State, id: Id) {
    exists r | r in s.rows :: r.kind == RefundRow && r.booking == id
  }

  /** The common part of both refund services: the row is written once, the balance moves every time. */
  function IssueRefund(s: State, id: Id, user: Id, refundCoins: int, refundMinor: int): (a: Attempt)
    ensures a.state.bookings == s.bookings && a.state.mentors == s.mentors && a.state.mentorOf == s.mentorOf
  {
    var credited := Credit(s, user, refundCoins as real, Refund, Some(id));
    if credited.ok && refundMinor > 0 then
      AddPlatform(if HasRefundRow(credited.state, id) then credited.state
                  else AddRow(credited.state, RefundRow, id, -refundMinor),
                  -refundMinor)
    else credited
  }

  // ---- mentors ------------------------------------------------------------------------------

  /** `recordNoShow`: the new count, 0 when the user is no mentor. */
  function RecordNoShow(s: State, user: Id): (State, nat) {
    match MentorOf(s, user)
    case None => (s, 0)
    case Some(m) =>
      if m in s.mentors then
        var count := s.mentors[m].skippedSessions + 1;
        (s.(mentors := s.mentors[m := s.mentors[m].(skippedSessions := count)]), count)
      else (s, 0)
  }

  function Later(a: Option<int>, b: int): int {
    if a.Some? && a.value > b then a.value else b
  }

  /** `recordCompletedSession`. */
  function RecordCompleted(s: State, m: Id, endTime: int): State {
    if m in s.mentors then
      s.(mentors := s.mentors[m := s.mentors[m].(
           totalSessions := s.mentors[m].totalSessions + 1,
           lastSessionAt := Some(Later(s.mentors[m].lastSessionAt, endTime)))])
    else s
  }

  function PutBooking(s: State, id: Id, b: Booking): State {
    s.(bookings := s.bookings[id := b])
  }

  // ---- creating -----------------------------------------------------------------------------

  datatype CreateInput = CreateInput(
    mentorId: Id, menteeId: Id, start: Option<int>, end: Option<int>, paymentType: PaymentType)

  function PriceOf(m: Mentor): real {
    m.pricePer30Min.GetOr(0.0)
  }

  /** Why a creation is refused before any payment; unreadable times are `None`. */
  function CreateError(s: State, i: CreateInput, now: int): Option<Error> {
    if i.menteeId == i.mentorId then Some(OwnSession)
    else if i.mentorId !in s.mentors then Some(MentorNotFound)
    else if i.start.None? || i.end.None? || i.start.value >= i.end.value then Some(InvalidTimeRange)
    else if i.start.value <= now then Some(InThePast)
    else if HasBlockingOverlap(s, i.mentorId, i.menteeId, i.start.value, i.end.value, None) then Some(SlotNotAvailable)
    else if HasBookingConflict(s, i.menteeId, i.start.value, i.end.value, None) then Some(MenteeBusy)
    else None
  }

  function NewBooking(m: Mentor, i: CreateInput): Booking
    requires i.start.Some? && i.end.Some?
  {
    var amount := BookingAmount(PriceOf(m), i.start.value, i.end.value);
    var paid := i.paymentType == Coins;
    Booking(i.mentorId, Some(m.userId), i.menteeId, i.start.value, i.end.value,
            if paid then Confirmed else Pending, i.paymentType, if paid then Paid else PaymentPending,
            if paid then amount.coins else amount.currency, None, None)
  }

  /** `CreateBookingUseCase.execute` under the fresh id `id`. */
  function Create(s: State, id: Id, i: CreateInput, now: int): (State, Result) {
    if CreateError(s, i, now).Some? then (s, Rejected(CreateError(s, i, now).value))
    else
      var b := NewBooking(s.mentors[i.mentorId], i);
      if i.paymentType == Stripe then (PutBooking(s, id, b), Done) else PayWithCoins(s, id, b)
  }

  /** Debit the mentee, collect into the platform wallet, and only then store the booking. */
  function PayWithCoins(s: State, id: Id, b: Booking): (State, Result) {
    if DebitError(s, b.menteeId, b.total).Some? then (s, Rejected(DebitError(s, b.menteeId, b.total).value))
    else
      var debited := AddCoins(s, b.menteeId, -b.total, SessionSpend, Some(id));
      var minor := CollectedMinor(b.total);
      var collected := if minor > 0 then MovePlatform(debited, CoinBooking, id, minor) else Attempt(debited, true);
      if collected.ok then (PutBooking(collected.state, id, b), Done) else (collected.state, Crashed)
  }

  // ---- rescheduling and cancelling -------------------------------------------------------------

  const HOURS_24: int := 86_400_000

  function RescheduleError(
    s: State, id: Id, user: Id, newStart: Option<int>, newEnd: Option<int>, now: int, rules: Availability.Rules)
    : Option<Error>
  {
    if id !in s.bookings then Some(BookingNotFound)
    else
      var b := s.bookings[id];
      if b.menteeId != user then Some(Unauthorized)
      else if b.status != Confirmed then Some(NotConfirmed)
      else if b.start - now < HOURS_24 then Some(TooLateToReschedule)
      else if newStart.Some? && newStart.value <= now + HOURS_24 then Some(NewStartTooSoon)
      else if newStart.None? || newEnd.None?
              || !Slots.WithinAvailability(rules, b.mentorId, newStart.value, newEnd.value) then
        Some(OutsideAvailability)
      else if HasBlockingOverlap(s, b.mentorId, b.menteeId, newStart.value, newEnd.value, Some(id)) then
        Some(SlotNotAvailable)
      else if HasBookingConflict(s, b.menteeId, newStart.value, newEnd.value, Some(id)) then Some(MenteeBusy)
      else None
  }

  /** `RescheduleBookingUseCase.execute` with the stored availability rules. */
  function Reschedule(
    s: State, id: Id, user: Id, newStart: Option<int>, newEnd: Option<int>, now: int, rules: Availability.Rules)
    : (State, Result)
  {
    var error := RescheduleError(s, id, user, newStart, newEnd, now, rules);
    if error.Some? then (s, Rejected(error.value))
    else (PutBooking(s, id, s.bookings[id].(start := newStart.value, end := newEnd.value)), Done)
  }

  predicate IsCancelled(status: Status) {
    status == CancelledByMentee || status == CancelledByMentor
  }

  function CancelByMenteeError(s: State, id: Id, user: Id): Option<Error> {
    if id !in s.bookings then Some(BookingNotFound)
    else if s.bookings[id].menteeId != user then Some(Unauthorized)
    else if IsCancelled(s.bookings[id].status) then Some(AlreadyCancelled)
    else if s.bookings[id].paymentStatus == PaymentPending then Some(PaymentIsPending)
    else if s.bookings[id].status != Pending && s.bookings[id].status != Confirmed then Some(NotCancellable)
    else None
  }

  function CancelByMentorError(s: State, id: Id, user: Id): Option<Error> {
    if user !in s.mentorOf then Some(MentorNotFound)
    else if id !in s.bookings then Some(BookingNotFound)
    else if s.bookings[id].mentorId != s.mentorOf[user] then Some(Unauthorized)
    else if IsCancelled(s.bookings[id].status) then Some(AlreadyCancelled)
    else if s.bookings[id].status != Pending && s.bookings[id].status != Confirmed then Some(NotCancellable)
    else None
  }

  /** What `RefundSessionAmountUseCase` returns to the mentee, in coins. */
  function RefundDue(b: Booking, byMentor: bool, now: int): int {
    if b.paymentStatus != Paid then 0
    else CancellationRefund(b.paymentType, b.total, RefundPercentage(byMentor, b.start, now))
  }

  /** Status first, refund after it. */
  function Cancelled(s: State, id: Id, byMentor: bool, now: int): (State, Result)
    requires id in s.bookings
  {
    var b := s.bookings[id];
    var marked := PutBooking(s, id, b.(status := if byMentor then CancelledByMentor else CancelledByMentee));
    var due := RefundDue(b, byMentor, now);
    if due <= 0 then (marked, Done)
    else
      var minor := RefundToMinor(due);
      var coins := if b.paymentType == Stripe then Round(minor as real / 100.0 * COIN_VALUE) else due;
      var refund := IssueRefund(marked, id, b.menteeId, coins, minor);
      (refund.state, if refund.ok then Done else Crashed)
  }

  function CancelError(s: State, id: Id, user: Id, byMentor: bool): Option<Error> {
    if byMentor then CancelByMentorError(s, id, user) else CancelByMenteeError(s, id, user)
  }

  function Cancel(s: State, id: Id, user: Id, byMentor: bool, now: int): (State, Result) {
    var error := CancelError(s, id, user, byMentor);
    if error.Some? then (s, Rejected(error.value)) else Cancelled(s, id, byMentor, now)
  }

  // ---- the session ---------------------------------------------------------------------------------

  const FIVE_MINUTES: int := 300_000
  const ONE_MINUTE: int := 60_000

  function JoinError(s: State, id: Id, user: Id, now: int): Option<Error> {
    if id !in s.bookings then Some(BookingNotFound)
    else
      var b := s.bookings[id];
      if b.mentorUserId != Some(user) && b.menteeId != user then Some(Unauthorized)
      else if b.status == Pending then Some(PaymentIsPending)
      else if now < b.start - FIVE_MINUTES then Some(TooEarly)
      else None
  }

  /** What the hosting mentor's arrival changes. */
  function Joined(b: Booking, now: int): Booking {
    b.(status := if b.status == Confirmed then Started else b.status,
       mentorJoinedAt := if b.mentorJoinedAt.None? then Some(now) else b.mentorJoinedAt)
  }

  /** `JoinSessionUseCase.execute`. */
  function Join(s: State, id: Id, user: Id, now: int): (State, Result) {
    var error := JoinError(s, id, user, now);
    if error.Some? then (s, Rejected(error.value))
    else if s.bookings[id].mentorUserId == Some(user) then (PutBooking(s, id, Joined(s.bookings[id], now)), Done)
    else (s, Done)
  }

  function TerminateError(s: State, id: Id, user: Id, now: int): Option<Error> {
    if id !in s.bookings then Some(BookingNotFound)
    else if s.bookings[id].mentorUserId != Some(user) then Some(Unauthorized)
    else if now < s.bookings[id].end - ONE_MINUTE then Some(TooEarly)
    else None
  }

  function Complete(s: State, id: Id): State
    requires id in s.bookings
  {
    var b := s.bookings[id];
    RecordCompleted(PutBooking(s, id, b.(status := Completed)), b.mentorId, b.end)
  }

  /** `TerminateSessionUseCase.execute`. */
  function Terminate(s: State, id: Id, user: Id, now: int): (State, Result) {
    var error := TerminateError(s, id, user, now);
    if error.Some? then (s, Rejected(error.value))
    else if s.bookings[id].status != Completed then (Complete(s, id), Done)
    else (s, Done)
  }

  // ---- settlement -------------------------------------------------------------------------------------

  predicate MentorJoined(b: Booking) {
    b.mentorJoinedAt.Some? || b.status == Started || b.status == Completed
  }

  function MarkSettled(s: State, id: Id, now: int): State
    requires id in s.bookings
  {
    PutBooking(s, id, s.bookings[id].(settledAt := Some(now)))
  }

  /** The money part of a settlement: payout when the mentor joined, else the no-show rules. */
  function PayOrRefund(s: State, id: Id, b: Booking): (a: Attempt)
    ensures a.state.bookings == s.bookings
  {
    var amounts := Calculate(b.paymentType, b.total);
    if b.mentorUserId.None? then Attempt(s, true)
    else if MentorJoined(b) then
      CreditMentor(s, id, b.mentorUserId.value, amounts.mentorCoins, amounts.mentorPayoutMinor)
    else
      var (noted, skipped) := RecordNoShow(s, b.mentorUserId.value);
      if skipped >= 2 && amounts.refundCoins > 0 then
        IssueRefund(noted.(blocked := noted.blocked + {b.mentorUserId.value}),
                    id, b.menteeId, amounts.refundCoins, amounts.refundMinor)
      else if skipped >= 2 then Attempt(noted.(blocked := noted.blocked + {b.mentorUserId.value}), true)
      else Attempt(noted, true)
  }

  predicate NeedsSettlement(s: State, id: Id) {
    id in s.bookings && s.bookings[id].settledAt.None? && s.bookings[id].paymentStatus == Paid
  }

  /** `SettleEndedSessionUseCase.execute`. */
  function Settle(s: State, id: Id, now: int): (State, Result) {
    if id !in s.bookings || s.bookings[id].settledAt.Some? then (s, Done)
    else if s.bookings[id].paymentStatus != Paid then (MarkSettled(s, id, now), Done)
    else
      var b := s.bookings[id];
      var completed := if b.status == Started then Complete(s, id) else s;
      var paid := PayOrRefund(completed, id, b);
      if paid.ok then (MarkSettled(paid.state, id, now), Done)
      else (paid.state, Crashed)
  }

  // ---- runs -----------------------------------------------------------------------------------------------

  datatype Op =
    | TopUp(user: Id, amount: real)
    | CreateOp(id: Id, input: CreateInput, now: int)
    | RescheduleOp(id: Id, user: Id, newStart: Option<int>, newEnd: Option<int>, now: int, rules: Availability.Rules)
    | CancelOp(id: Id, user: Id, byMentor: bool, now: int)
    | JoinOp(id: Id, user: Id, now: int)
    | TerminateOp(id: Id, user: Id, now: int)
    | SettleOp(id: Id, now: int)

  /** Ids of new bookings are fresh and top-ups are positive: anything else is no step. */
  function Perform(s: State, op: Op): (State, Result) {
    match op
    case TopUp(user, amount) =>
      if amount > 0.0 && user in s.coins then (AddCoins(s, user, amount, Purchase, None), Done)
      else (s, Rejected(InvalidTransaction))
    case CreateOp(id, i, now) => if id in s.bookings then (s, Rejected(InvalidTransaction)) else Create(s, id, i, now)
    case RescheduleOp(id, user, newStart, newEnd, now, rules) => Reschedule(s, id, user, newStart, newEnd, now, rules)
    case CancelOp(id, user, byMentor, now) => Cancel(s, id, user, byMentor, now)
    case JoinOp(id, user, now) => Join(s, id, user, now)
    case TerminateOp(id, user, now) => Terminate(s, id, user, now)
    case SettleOp(id, now) => Settle(s, id, now)
  }

  function Step(s: State, op: Op): State {
    Perform(s, op).0
  }

  function Run(s: State, ops: seq<Op>): State {
    if ops == [] then s else Step(Run(s, ops[..|ops| - 1]), ops[|ops| - 1])
  }

  /** Mentors refer to existing users one to one, and nothing has happened yet. */
  ghost predicate Initial(s: State) {
    && s.bookings == map[] && s.coinTxs == [] && s.rows == [] && s.platform == 0
    && (forall u :: u in s.coins ==> s.coins[u] == 0.0)
    && (forall m :: m in s.mentors ==>
          && s.mentors[m].skippedSessions == 0 && s.mentors[m].totalSessions == 0
          && s.mentors[m].lastSessionAt.None?)
    && MentorsWellFormed(s)
  }

  ghost predicate MentorsWellFormed(s: State) {
    && (forall m :: m in s.mentors ==>
          && s.mentors[m].userId in s.coins
          && s.mentors[m].userId in s.mentorOf && s.mentorOf[s.mentors[m].userId] == m
          && PriceOf(s.mentors[m]) >= 0.0)
    && (forall u :: u in s.mentorOf ==> s.mentorOf[u] in s.mentors && s.mentors[s.mentorOf[u]].userId == u)
  }
}
