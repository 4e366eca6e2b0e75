/** Fee formulas of the CACHE Gold token: the storage fee, the inactivity
    fee, the transfer fee and "send all", the inverse of the transfer fee.
    All amounts are in the smallest unit, 10^-8 of a token. */
module Fees {

  /** One token in smallest units (8 decimals). */
  const TOKEN: nat := 100_000_000
  const DAY_SECONDS: nat := 86400
  const YEAR_DAYS: nat := 365
  const BASIS_POINTS: nat := 10000
  /** Storage fee: 25 basis points a year. */
  const STORAGE_FEE_BASIS_POINTS: nat := 25
  /** Inactivity fee: 50 basis points a year of the inactive snapshot. */
  const INACTIVE_FEE_BASIS_POINTS: nat := 50
  /** Days without activity after which an account may be marked inactive. */
  const INACTIVE_THRESHOLD_DAYS: nat := 1095
  const DEFAULT_TRANSFER_FEE_BASIS_POINTS: nat := 10
  const MAX_TRANSFER_FEE_BASIS_POINTS: nat := 10
  /** Hard cap on the total supply. */
  const SUPPLY_LIMIT: nat := 8133525786 * TOKEN

  /** Denominator of a yearly basis-point rate prorated by days. */
  const YEAR_RATE_DENOMINATOR: nat := BASIS_POINTS * YEAR_DAYS

  /** Subtraction clamped at zero. */
  function Sub0(a: nat, b: nat): nat {
    if a <= b then 0 else a - b
  }

  function Min(a: nat, b: nat): nat {
    if a <= b then a else b
  }

  /** Whole days elapsed between two timestamps, in seconds; zero when time
      has not moved forward. */
  function ElapsedDays(from: nat, to: nat): (days: nat)
    ensures from <= to ==> days * DAY_SECONDS <= to - from < (days + 1) * DAY_SECONDS
    ensures to <= from ==> days == 0
  {
    if to <= from then 0 else (to - from) / DAY_SECONDS
  }

  // ---------------------------------------------------------------------
  // Storage fee
  // ---------------------------------------------------------------------

  /** Days on which the storage fee is charged: once the account has been
      idle for the inactivity threshold, the days past the threshold belong
      to the inactivity fee and are not charged twice. */
  function ChargedStorageDays(daysSincePaid: nat, daysSinceActivity: nat): (days: nat)
    ensures days <= daysSincePaid
    ensures daysSinceActivity < INACTIVE_THRESHOLD_DAYS ==> days == daysSincePaid
    ensures (daysSinceActivity >= INACTIVE_THRESHOLD_DAYS &&
             daysSinceActivity - INACTIVE_THRESHOLD_DAYS <= daysSincePaid) ==>
              days + (daysSinceActivity - INACTIVE_THRESHOLD_DAYS) == daysSincePaid
    ensures (daysSinceActivity >= INACTIVE_THRESHOLD_DAYS &&
             daysSinceActivity - INACTIVE_THRESHOLD_DAYS > daysSincePaid) ==> days == 0
  {
    if daysSinceActivity >= INACTIVE_THRESHOLD_DAYS
    then Sub0(daysSincePaid, daysSinceActivity - INACTIVE_THRESHOLD_DAYS)
    else daysSincePaid
  }

  /** Storage fee on `balance` held for `days` days: 25 bps a year prorated
      by whole days, rounded down, and never more than the balance. */
  function StorageFee(balance: nat, days: nat): (fee: nat)
    ensures fee <= balance
  {
    var prorated := balance * days * STORAGE_FEE_BASIS_POINTS / YEAR_RATE_DENOMINATOR;
    if prorated > balance then balance else prorated
  }

  /** The storage fee is the prorated fee rounded down, unless capped at
      the balance. */
  lemma StorageFeeRounding(balance: nat, days: nat)
    ensures var fee := StorageFee(balance, days);
            && fee * YEAR_RATE_DENOMINATOR <= balance * days * STORAGE_FEE_BASIS_POINTS
            && (fee == balance || balance * days * STORAGE_FEE_BASIS_POINTS < (fee + 1) * YEAR_RATE_DENOMINATOR)
  {
    DivBounds(balance * days * STORAGE_FEE_BASIS_POINTS, YEAR_RATE_DENOMINATOR);
  }

  /** No days, no fee. */
  lemma StorageFeeNoDays(balance: nat)
    ensures StorageFee(balance, 0) == 0
  {
  }

  /** The storage fee never decreases as days accumulate. */
  lemma {:induction false} StorageFeeMonotone(balance: nat, d1: nat, d2: nat)
    requires d1 <= d2
    ensures StorageFee(balance, d1) <= StorageFee(balance, d2)
  {
    var p1 := balance * d1 * STORAGE_FEE_BASIS_POINTS;
    var p2 := balance * d2 * STORAGE_FEE_BASIS_POINTS;
    MulLeftMono(balance * STORAGE_FEE_BASIS_POINTS, d1, d2);
    assert p1 == balance * STORAGE_FEE_BASIS_POINTS * d1;
    assert p2 == balance * STORAGE_FEE_BASIS_POINTS * d2;
    DivMono(p1, p2, YEAR_RATE_DENOMINATOR);
  }

  /** Once a whole day has passed, a balance of at least 146000 units
      (0.00146 token) owes a positive storage fee: small transfers cannot
      keep a real balance from paying. */
  lemma StorageFeePositiveAfterOneDay(balance: nat, days: nat)
    requires balance >= YEAR_RATE_DENOMINATOR / STORAGE_FEE_BASIS_POINTS
    requires days >= 1
    ensures StorageFee(balance, days) >= 1
  {
    var p := balance * days * STORAGE_FEE_BASIS_POINTS;
    MulLeftMono(balance * STORAGE_FEE_BASIS_POINTS, 1, days);
    assert p == balance * STORAGE_FEE_BASIS_POINTS * days;
    assert p >= YEAR_RATE_DENOMINATOR;
    DivMono(YEAR_RATE_DENOMINATOR, p, YEAR_RATE_DENOMINATOR);
  }

  /** A smaller balance never owes a larger storage fee. */
  lemma StorageFeeMonotoneInBalance(b1: nat, b2: nat, days: nat)
    requires b1 <= b2
    ensures StorageFee(b1, days) <= StorageFee(b2, days)
  {
    MulRightMono(b1, b2, days * STORAGE_FEE_BASIS_POINTS);
    assert b1 * days * STORAGE_FEE_BASIS_POINTS == b1 * (days * STORAGE_FEE_BASIS_POINTS);
    assert b2 * days * STORAGE_FEE_BASIS_POINTS == b2 * (days * STORAGE_FEE_BASIS_POINTS);
    DivMono(b1 * days * STORAGE_FEE_BASIS_POINTS, b2 * days * STORAGE_FEE_BASIS_POINTS, YEAR_RATE_DENOMINATOR);
  }

  /** The storage fee reaches the whole balance only after 400 years. */
  lemma StorageFeeCapped(balance: nat, days: nat)
    requires balance > 0
    ensures StorageFee(balance, days) == balance <==> days >= YEAR_RATE_DENOMINATOR / STORAGE_FEE_BASIS_POINTS
  {
    var k := YEAR_RATE_DENOMINATOR / STORAGE_FEE_BASIS_POINTS;
    assert k * STORAGE_FEE_BASIS_POINTS == YEAR_RATE_DENOMINATOR;
    var p := balance * days * STORAGE_FEE_BASIS_POINTS;
    assert p == balance * STORAGE_FEE_BASIS_POINTS * days;
    if days >= k {
      MulLeftMono(balance * STORAGE_FEE_BASIS_POINTS, k, days);
      assert p >= balance * YEAR_RATE_DENOMINATOR;
      DivMono(balance * YEAR_RATE_DENOMINATOR, p, YEAR_RATE_DENOMINATOR);
    } else {
      MulLeftMono(balance * STORAGE_FEE_BASIS_POINTS, days, k - 1);
      assert p <= balance * (YEAR_RATE_DENOMINATOR - STORAGE_FEE_BASIS_POINTS);
      assert p < balance * YEAR_RATE_DENOMINATOR;
      DivUpper(p, balance, YEAR_RATE_DENOMINATOR);
    }
  }

  // ---------------------------------------------------------------------
  // Inactivity fee
  // ---------------------------------------------------------------------

  /** The yearly inactivity fee scaled by BASIS_POINTS: 50 bps of the
      snapshot, but at least one whole token a year. */
  function YearlyInactiveFeeScaled(snapshot: nat): (scaled: nat)
    ensures scaled >= TOKEN * BASIS_POINTS
    ensures scaled >= snapshot * INACTIVE_FEE_BASIS_POINTS
    ensures scaled == TOKEN * BASIS_POINTS || scaled == snapshot * INACTIVE_FEE_BASIS_POINTS
  {
    if snapshot * INACTIVE_FEE_BASIS_POINTS > TOKEN * BASIS_POINTS
    then snapshot * INACTIVE_FEE_BASIS_POINTS
    else TOKEN * BASIS_POINTS
  }

  /** Inactivity fee accrued since the threshold, prorated by whole days
      past it and rounded down. */
  function AccruedInactiveFee(snapshot: nat, daysInactive: nat): (accrued: nat)
    ensures daysInactive <= INACTIVE_THRESHOLD_DAYS ==> accrued == 0
    ensures var scaled := YearlyInactiveFeeScaled(snapshot) * Sub0(daysInactive, INACTIVE_THRESHOLD_DAYS);
            accrued * YEAR_RATE_DENOMINATOR <= scaled < (accrued + 1) * YEAR_RATE_DENOMINATOR
  {
    var scaled := YearlyInactiveFeeScaled(snapshot) * Sub0(daysInactive, INACTIVE_THRESHOLD_DAYS);
    DivBounds(scaled, YEAR_RATE_DENOMINATOR);
    scaled / YEAR_RATE_DENOMINATOR
  }

  /** Inactivity fee still owed: the accrued fee less what was already
      paid, never negative and never more than the current balance. */
  function InactiveFee(balance: nat, daysInactive: nat, snapshot: nat, paid: nat): (fee: nat)
    ensures fee <= balance
    ensures fee + paid <= AccruedInactiveFee(snapshot, daysInactive) || fee == 0
    ensures fee == balance || fee + paid >= AccruedInactiveFee(snapshot, daysInactive)
    ensures daysInactive <= INACTIVE_THRESHOLD_DAYS ==> fee == 0
  {
    Min(Sub0(AccruedInactiveFee(snapshot, daysInactive), paid), balance)
  }

  /** No inactivity fee is owed up to the threshold, 1094 days included. */
  lemma InactiveFeeZeroBeforeThreshold(balance: nat, snapshot: nat, paid: nat)
    ensures InactiveFee(balance, INACTIVE_THRESHOLD_DAYS - 1, snapshot, paid) == 0
    ensures InactiveFee(balance, INACTIVE_THRESHOLD_DAYS, snapshot, paid) == 0
  {
  }

  /** At least one whole token accrues per full year past the threshold. */
  lemma InactiveFeeAtLeastOneTokenPerYear(snapshot: nat, years: nat)
    ensures AccruedInactiveFee(snapshot, INACTIVE_THRESHOLD_DAYS + YEAR_DAYS * years) >= years * TOKEN
  {
    var y := YearlyInactiveFeeScaled(snapshot);
    var d := YEAR_DAYS * years;
    assert Sub0(INACTIVE_THRESHOLD_DAYS + d, INACTIVE_THRESHOLD_DAYS) == d;
    MulRightMono(TOKEN * BASIS_POINTS, y, d);
    assert TOKEN * BASIS_POINTS * d == years * TOKEN * YEAR_RATE_DENOMINATOR;
    DivMono(years * TOKEN * YEAR_RATE_DENOMINATOR, y * d, YEAR_RATE_DENOMINATOR);
  }

  /** For a snapshot of at most 200 tokens the minimum applies: exactly one
      token per full year. */
  lemma InactiveFeeMinimumRate(snapshot: nat, years: nat)
    requires snapshot * INACTIVE_FEE_BASIS_POINTS <= TOKEN * BASIS_POINTS
    ensures AccruedInactiveFee(snapshot, INACTIVE_THRESHOLD_DAYS + YEAR_DAYS * years) == years * TOKEN
  {
    var d := YEAR_DAYS * years;
    assert Sub0(INACTIVE_THRESHOLD_DAYS + d, INACTIVE_THRESHOLD_DAYS) == d;
    assert TOKEN * BASIS_POINTS * d == years * TOKEN * YEAR_RATE_DENOMINATOR;
  }

  /** Above the minimum, two years of inactivity cost 1% of the snapshot. */
  lemma InactiveFeeTwoYears(snapshot: nat)
    requires snapshot * INACTIVE_FEE_BASIS_POINTS > TOKEN * BASIS_POINTS
    ensures AccruedInactiveFee(snapshot, INACTIVE_THRESHOLD_DAYS + 2 * YEAR_DAYS) == snapshot / 100
  {
    var d := 2 * YEAR_DAYS;
    assert Sub0(INACTIVE_THRESHOLD_DAYS + d, INACTIVE_THRESHOLD_DAYS) == d;
    assert snapshot * INACTIVE_FEE_BASIS_POINTS * d == snapshot * 36500;
    assert YEAR_RATE_DENOMINATOR == 36500 * 100;
    DivCancel(snapshot, 36500, 100);
  }

  /** Paying the owed inactivity fee settles it: at the same instant nothing
      more is owed. */
  lemma InactiveFeeSettles(balance: nat, daysInactive: nat, snapshot: nat, paid: nat)
    ensures var fee := InactiveFee(balance, daysInactive, snapshot, paid);
            InactiveFee(balance - fee, daysInactive, snapshot, paid + fee) == 0
  {
  }

  /** The inactivity fee owed never decreases with time. */
  lemma InactiveFeeMonotone(balance: nat, d1: nat, d2: nat, snapshot: nat, paid: nat)
    requires d1 <= d2
    ensures InactiveFee(balance, d1, snapshot, paid) <= InactiveFee(balance, d2, snapshot, paid)
  {
    var y := YearlyInactiveFeeScaled(snapshot);
    MulLeftMono(y, Sub0(d1, INACTIVE_THRESHOLD_DAYS), Sub0(d2, INACTIVE_THRESHOLD_DAYS));
    DivMono(y * Sub0(d1, INACTIVE_THRESHOLD_DAYS), y * Sub0(d2, INACTIVE_THRESHOLD_DAYS), YEAR_RATE_DENOMINATOR);
  }

  // ---------------------------------------------------------------------
  // Transfer fee and its inverse
  // ---------------------------------------------------------------------

  /** Transfer fee: `basisPoints` of the amount, rounded down. */
  function TransferFee(amount: nat, basisPoints: nat): (fee: nat) {
    amount * basisPoints / BASIS_POINTS
  }

  /** The transfer fee is `basisPoints` of the amount, rounded down. */
  lemma TransferFeeRounding(amount: nat, basisPoints: nat)
    ensures var fee := TransferFee(amount, basisPoints);
            fee * BASIS_POINTS <= amount * basisPoints < (fee + 1) * BASIS_POINTS
  {
    DivBounds(amount * basisPoints, BASIS_POINTS);
  }

  /** At the default 10 bps, 999 units pay nothing and 1000 units pay one. */
  lemma TransferFeeDust()
    ensures TransferFee(999, DEFAULT_TRANSFER_FEE_BASIS_POINTS) == 0
    ensures TransferFee(1000, DEFAULT_TRANSFER_FEE_BASIS_POINTS) == 1
  {
  }

  lemma TransferFeeMonotone(a1: nat, a2: nat, basisPoints: nat)
    requires a1 <= a2
    ensures TransferFee(a1, basisPoints) <= TransferFee(a2, basisPoints)
  {
    MulRightMono(a1, a2, basisPoints);
    DivMono(a1 * basisPoints, a2 * basisPoints, BASIS_POINTS);
  }

  /** At a rate of at most 100%, one more unit sent adds at most one unit of fee. */
  lemma TransferFeeStep(amount: nat, basisPoints: nat)
    requires basisPoints <= BASIS_POINTS
    ensures TransferFee(amount + 1, basisPoints) <= TransferFee(amount, basisPoints) + 1
  {
    var f0 := TransferFee(amount, basisPoints);
    var f1 := TransferFee(amount + 1, basisPoints);
    assert (amount + 1) * basisPoints == amount * basisPoints + basisPoints;
    assert f1 * BASIS_POINTS < (f0 + 2) * BASIS_POINTS;
    MulCancelLt(f1, f0 + 2, BASIS_POINTS);
  }

  /** At a rate of at most 100%, the transfer fee never exceeds the amount. */
  lemma TransferFeeAtMostAmount(amount: nat, basisPoints: nat)
    ensures basisPoints <= BASIS_POINTS ==> TransferFee(amount, basisPoints) <= amount
  {
    if basisPoints <= BASIS_POINTS {
      MulLeftMono(amount, basisPoints, BASIS_POINTS);
      DivMono(amount * basisPoints, amount * BASIS_POINTS, BASIS_POINTS);
    }
  }

  /** Send-all: the reference calculation. Start from
      floor(balance * 10000 / (10000 + bp)) + 1 and step back one unit when
      that amount plus its fee overshoots the balance. */
  function SendAll(balance: nat, basisPoints: nat): (amount: nat)
    ensures amount + TransferFee(amount, basisPoints) <= balance
  {
    var quotient := balance * BASIS_POINTS / (BASIS_POINTS + basisPoints);
    var guess := quotient + 1;
    QuotientFits(balance, basisPoints);
    if guess + TransferFee(guess, basisPoints) > balance then guess - 1 else guess
  }

  /** floor(balance * 10000 / (10000 + bp)) fits together with its fee. */
  lemma QuotientFits(balance: nat, basisPoints: nat)
    ensures var q := balance * BASIS_POINTS / (BASIS_POINTS + basisPoints);
            q + TransferFee(q, basisPoints) <= balance
  {
    var q := balance * BASIS_POINTS / (BASIS_POINTS + basisPoints);
    var f := TransferFee(q, basisPoints);
    assert q * (BASIS_POINTS + basisPoints) <= balance * BASIS_POINTS;
    assert (q + f) * BASIS_POINTS == q * BASIS_POINTS + f * BASIS_POINTS;
    assert (q + f) * BASIS_POINTS <= balance * BASIS_POINTS;
    MulCancelLe(q + f, balance, BASIS_POINTS);
  }

  /** One unit more than send-all no longer fits with its fee. */
  lemma SendAllNextDoesNotFit(balance: nat, basisPoints: nat)
    ensures var s := SendAll(balance, basisPoints);
            s + 1 + TransferFee(s + 1, basisPoints) > balance
  {
    var q := balance * BASIS_POINTS / (BASIS_POINTS + basisPoints);
    var s := SendAll(balance, basisPoints);
    if s == q + 1 {
      var f := TransferFee(q + 2, basisPoints);
      assert (q + 1) * (BASIS_POINTS + basisPoints) > balance * BASIS_POINTS;
      assert (q + 2) * (BASIS_POINTS + basisPoints) == (q + 1) * (BASIS_POINTS + basisPoints) + BASIS_POINTS + basisPoints;
      assert (q + 2 + f) * BASIS_POINTS + BASIS_POINTS > (q + 2) * (BASIS_POINTS + basisPoints);
      assert balance * BASIS_POINTS < (q + 2 + f) * BASIS_POINTS;
      MulCancelLt(balance, q + 2 + f, BASIS_POINTS);
    }
  }

  /** Send-all is the largest amount that, with its transfer fee, fits in
      the balance. */
  lemma SendAllIsMaximal(balance: nat, basisPoints: nat, amount: nat)
    requires amount + TransferFee(amount, basisPoints) <= balance
    ensures amount <= SendAll(balance, basisPoints)
  {
    var s := SendAll(balance, basisPoints);
    SendAllNextDoesNotFit(balance, basisPoints);
    if amount > s {
      TransferFeeMonotone(s + 1, amount, basisPoints);
    }
  }

  /** Sending send-all leaves at most one unit behind, and nothing at all
      unless one more unit would also have raised the fee. */
  lemma SendAllResidual(balance: nat, basisPoints: nat)
    requires basisPoints <= BASIS_POINTS
    ensures var s := SendAll(balance, basisPoints);
            balance - (s + TransferFee(s, basisPoints)) <= 1
    ensures var s := SendAll(balance, basisPoints);
            TransferFee(s + 1, basisPoints) == TransferFee(s, basisPoints) ==>
            s + TransferFee(s, basisPoints) == balance
  {
    var s := SendAll(balance, basisPoints);
    SendAllNextDoesNotFit(balance, basisPoints);
    TransferFeeStep(s, basisPoints);
  }

  /** A settled balance of one unit can be sent in full: below a rate of
      100% its transfer fee rounds to nothing. */
  lemma SendAllOneUnit(basisPoints: nat)
    requires basisPoints < BASIS_POINTS
    ensures SendAll(1, basisPoints) == 1
  {
    assert TransferFee(1, basisPoints) == 0;
    SendAllIsMaximal(1, basisPoints, 1);
  }

  /** Without a transfer fee, send-all is the whole balance. */
  lemma SendAllWithoutFee(balance: nat)
    ensures SendAll(balance, 0) == balance
  {
    SendAllIsMaximal(balance, 0, balance);
  }

  // ---------------------------------------------------------------------
  // Arithmetic helpers
  // ---------------------------------------------------------------------

  lemma MulLeftMono(k: nat, a: nat, b: nat)
    requires a <= b
    ensures k * a <= k * b
  {
  }

  lemma MulRightMono(a: nat, b: nat, k: nat)
    requires a <= b
    ensures a * k <= b * k
  {
  }

  lemma MulCancelLt(x: nat, y: nat, k: nat)
    requires x * k < y * k
    ensures x < y
  {
  }

  lemma MulCancelLe(x: nat, y: nat, k: nat)
    requires k > 0 && x * k <= y * k
    ensures x <= y
  {
  }

  lemma DivBounds(n: nat, d: nat)
    requires d > 0
    ensures (n / d) * d <= n < (n / d + 1) * d
  {
    assert n == (n / d) * d + n % d;
  }

  lemma DivMono(a: nat, b: nat, d: nat)
    requires a <= b && d > 0
    ensures a / d <= b / d
  {
    assert (a / d) * d <= a;
    assert b < (b / d + 1) * d;
    MulCancelLt(a / d, b / d + 1, d);
  }

  /** A quotient below k is below k. */
  lemma DivUpper(a: nat, k: nat, d: nat)
    requires d > 0 && a < k * d
    ensures a / d < k
  {
  }

  lemma DivLower(a: nat, k: nat, d: nat)
    requires d > 0 && k * d <= a
    ensures k <= a / d
  {
    assert a < (a / d + 1) * d;
    MulCancelLt(k, a / d + 1, d);
  }

  lemma DivUnique(x: nat, m: nat, q: nat, s: nat)
    requires m > 0 && s < m && x == q * m + s
    ensures x / m == q
  {
    DivLower(x, q, m);
    assert x < (q + 1) * m;
    assert (x / m) * m <= x;
    MulCancelLt(x / m, q + 1, m);
  }

  lemma DivCancel(a: nat, k: nat, d: nat)
    requires k > 0 && d > 0
    ensures a * k / (k * d) == a / d
  {
    var q := a / d;
    var r := a % d;
    assert a == q * d + r;
    assert a * k == q * (k * d) + r * k;
    assert r * k < d * k;
    DivUnique(a * k, k * d, q, r * k);
  }
}
