/**
  Amounts of a session in coins and in minor currency units (paise).  JavaScript numbers
  are modelled by exact reals.
 */
module Money {
  /** Coins per rupee. */
  const COIN_VALUE: real := 2.0
  /** Platform commission in percent. */
  const SESSION_PERCENTAGE: int := 15

  datatype PaymentType = Coins | Stripe

  /** `Math.round`. */
  function Round(x: real): int {
    (x + 0.5).Floor
  }

  datatype Price = Price(currency: real, coins: real)

  /** `calculateBookingAmount`: start and end are instants in milliseconds. */
  function BookingAmount(pricePer30Min: real, start: int, end: int): Price {
    var durationMinutes := (end - start) as real / 60_000.0;
    var coins := durationMinutes / 30.0 * pricePer30Min;
    Price(coins / COIN_VALUE, coins)
  }

  /** Every half hour costs the mentor's price, in coins; a coin is worth half a rupee. */
  lemma HalfHoursCost(pricePer30Min: real, start: int, halfHours: nat)
    ensures var price := BookingAmount(pricePer30Min, start, start + halfHours * 1_800_000);
            price.coins == halfHours as real * pricePer30Min && price.currency * COIN_VALUE == price.coins
  {
    assert (halfHours * 1_800_000) as real / 60_000.0 / 30.0 == halfHours as real;
  }

  /** What a coin booking adds to the platform wallet. */
  function CollectedMinor(totalCoins: real): int {
    Round(totalCoins / COIN_VALUE * 100.0)
  }

  datatype Settlement = Settlement(mentorCoins: int, mentorPayoutMinor: int, refundCoins: int, refundMinor: int)

  function MentorPercentage(): real {
    if 100 - SESSION_PERCENTAGE < 0 then 0.0 else (100 - SESSION_PERCENTAGE) as real
  }

  /** `SessionSettlementCalculatorService.calculate`. */
  function Calculate(paymentType: PaymentType, total: real): Settlement {
    match paymentType
    case Coins =>
      Settlement(
        Round(total * MentorPercentage() / 100.0),
        Round(total / COIN_VALUE * 100.0 * (MentorPercentage() / 100.0)),
        Round(total),
        Round(total / COIN_VALUE * 100.0))
    case Stripe =>
      Settlement(
        Round(total * COIN_VALUE * (MentorPercentage() / 100.0)),
        Round(total * 100.0 * (MentorPercentage() / 100.0)),
        Round(total * COIN_VALUE),
        Round(total * 100.0))
  }

  lemma RoundMonotone(x: real, y: real)
    requires x <= y
    ensures Round(x) <= Round(y)
  {
  }

  /** Rounding moves a value by at most one half. */
  lemma RoundNear(x: real)
    ensures x - 0.5 <= Round(x) as real <= x + 0.5
  {
  }

  /**
    A settlement never pays out of a coin booking more than was collected for it: the
    mentor's share is at most, and the refund is exactly, the collected amount.
   */
  lemma SettlementWithinCollected(total: real)
    requires total >= 0.0
    ensures 0 <= Calculate(Coins, total).mentorPayoutMinor <= CollectedMinor(total)
    ensures Calculate(Coins, total).refundMinor == CollectedMinor(total)
    ensures 0 <= Calculate(Coins, total).mentorCoins <= Calculate(Coins, total).refundCoins
  {
    var minor := total / COIN_VALUE * 100.0;
    assert minor * (MentorPercentage() / 100.0) <= minor;
    RoundMonotone(minor * (MentorPercentage() / 100.0), minor);
    RoundMonotone(total * MentorPercentage() / 100.0, total);
  }

  /** What the platform keeps differs from the 15 percent commission by at most one minor unit. */
  lemma CommissionWithinOneUnit(total: real)
    requires total >= 0.0
    ensures var kept := (CollectedMinor(total) - Calculate(Coins, total).mentorPayoutMinor) as real;
            var commission := total / COIN_VALUE * 100.0 * 0.15;
            commission - 1.0 <= kept <= commission + 1.0
  {
    var minor := total / COIN_VALUE * 100.0;
    RoundNear(minor);
    RoundNear(minor * (MentorPercentage() / 100.0));
    assert minor - minor * (MentorPercentage() / 100.0) == minor * 0.15;
  }

  /** A session paid in rupees settles like one paid with the same worth of coins. */
  lemma StripeSettlesLikeCoins(rupees: real)
    ensures Calculate(Stripe, rupees) == Calculate(Coins, rupees * COIN_VALUE)
  {
    assert rupees * COIN_VALUE / COIN_VALUE == rupees;
  }

  /** What is credited in coins and what leaves the wallet in minor units differ by rounding alone. */
  lemma CreditBackedByWallet(paymentType: PaymentType, total: real)
    ensures var a := Calculate(paymentType, total);
            && -25.5 <= (a.mentorPayoutMinor - 50 * a.mentorCoins) as real <= 25.5
            && -25.5 <= (a.refundMinor - 50 * a.refundCoins) as real <= 25.5
  {
    var coins := if paymentType == Coins then total else total * COIN_VALUE;
    RoundNear(coins * 0.85);
    RoundNear(coins * 42.5);
    RoundNear(coins);
    RoundNear(coins * 50.0);
  }

  // ---- refunds of cancellations ------------------------------------------------------------

  const DAY: int := 86_400_000

  /** The share of a paid booking that a cancellation returns, in percent. */
  function RefundPercentage(byMentor: bool, start: int, now: int): int {
    if byMentor then 100
    else if start - now <= DAY then 0
    else if start - now <= 3 * DAY then 50
    else 75
  }

  /** `RefundSessionAmountUseCase`: coins to return for a paid booking. */
  function CancellationRefund(paymentType: PaymentType, total: real, percentage: int): int {
    var baseCoins := if paymentType == Coins then total else total * COIN_VALUE;
    Round(baseCoins * percentage as real / 100.0)
  }

  /** The same refund in minor units. */
  function RefundToMinor(refundCoins: int): int {
    Round(refundCoins as real / COIN_VALUE * 100.0)
  }

  lemma RefundToMinorExact(refundCoins: int)
    ensures RefundToMinor(refundCoins) == 50 * refundCoins
  {
    assert refundCoins as real / COIN_VALUE * 100.0 == (50 * refundCoins) as real;
  }

  /** A Stripe refund converts minor units back to the same number of coins. */
  lemma StripeRefundCoins(due: int)
    ensures Round(RefundToMinor(due) as real / 100.0 * COIN_VALUE) == due
  {
    RefundToMinorExact(due);
    assert (50 * due) as real / 100.0 * COIN_VALUE == due as real;
  }

  /**
    Cancelling earlier never returns less, a cancellation by the mentee never returns more
    than 75 percent, and one by the mentor returns what a no-show refund would.
   */
  lemma RefundTiers(paymentType: PaymentType, total: real, start: int, early: int, late: int)
    requires total >= 0.0 && early <= late
    ensures var (sooner, later) := (CancellationRefund(paymentType, total, RefundPercentage(false, start, early)),
                                    CancellationRefund(paymentType, total, RefundPercentage(false, start, late)));
            0 <= later <= sooner <= CancellationRefund(paymentType, total, 75)
    ensures CancellationRefund(paymentType, total, RefundPercentage(true, start, late))
         == Calculate(paymentType, total).refundCoins
  {
    RefundGrows(paymentType, total, 0, 50);
    RefundGrows(paymentType, total, 50, 75);
    FullRefund(paymentType, total);
  }

  lemma RefundGrows(paymentType: PaymentType, total: real, p: nat, q: nat)
    requires total >= 0.0 && p <= q
    ensures 0 <= CancellationRefund(paymentType, total, p) <= CancellationRefund(paymentType, total, q)
  {
    var coins := if paymentType == Coins then total else total * COIN_VALUE;
    assert 0.0 <= coins * p as real <= coins * q as real;
    RoundMonotone(0.0, coins * p as real / 100.0);
    RoundMonotone(coins * p as real / 100.0, coins * q as real / 100.0);
  }

  lemma FullRefund(paymentType: PaymentType, total: real)
    ensures CancellationRefund(paymentType, total, 100) == Calculate(paymentType, total).refundCoins
  {
  }
}
