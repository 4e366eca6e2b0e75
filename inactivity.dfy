/** Inactivation, reactivation and the fee enforcer's collections. */
module InactivityProofs {
  import opened Fees
  import opened Ledger
  import opened Settlement

  /** For an active, non-exempt account holding funds whose storage fee has
      run for under 400 years, the fee enforcer can mark it inactive exactly
      from the 1095th idle day on; anyone else is refused. */
  lemma InactivationThreshold(L: Ledger, caller: Address, a: Address, now: nat)
    requires var acct := L.Get(a);
             && acct.balance > 0 && !acct.isInactive && !acct.isFeeExempt
             && Sub0(DaysSincePaidStorageFee(acct, now), acct.storageFeeGraceDays) < YEAR_RATE_DENOMINATOR / STORAGE_FEE_BASIS_POINTS
    ensures caller != L.roles.feeEnforcer ==> SetAccountInactive(L, caller, a, now) == Err(NotFeeEnforcer)
    ensures caller == L.roles.feeEnforcer ==>
              (SetAccountInactive(L, caller, a, now).Ok? <==> DaysSinceActivity(L.Get(a), now) >= INACTIVE_THRESHOLD_DAYS)
  {
    var acct := L.Get(a);
    var days := Sub0(DaysSincePaidStorageFee(acct, now), acct.storageFeeGraceDays);
    var charged := ChargedStorageDays(days, DaysSinceActivity(acct, now));
    StorageFeeCapped(acct.balance, charged);
    assert CalcStorageFee(acct, now) < acct.balance;
  }

  /** An exempt account can never be marked inactive. */
  lemma ExemptNeverInactive(L: Ledger, caller: Address, a: Address, now: nat)
    requires L.Get(a).isFeeExempt
    ensures SetAccountInactive(L, caller, a, now).Err?
  {
  }

  /** On the 1094th idle day an account cannot be marked inactive; on the
      1095th it can. */
  lemma InactivationDay(L: Ledger, a: Address, t: nat)
    requires var acct := L.Get(a);
             && t > 0 && acct.lastActivity == t
             && acct.balance > 0 && !acct.isInactive && !acct.isFeeExempt
             && Sub0(DaysSincePaidStorageFee(acct, t + INACTIVE_THRESHOLD_DAYS * DAY_SECONDS), acct.storageFeeGraceDays)
                  < YEAR_RATE_DENOMINATOR / STORAGE_FEE_BASIS_POINTS
    ensures SetAccountInactive(L, L.roles.feeEnforcer, a, t + (INACTIVE_THRESHOLD_DAYS - 1) * DAY_SECONDS)
              == Err(CannotMarkInactive)
    ensures SetAccountInactive(L, L.roles.feeEnforcer, a, t + INACTIVE_THRESHOLD_DAYS * DAY_SECONDS).Ok?
  {
    var acct := L.Get(a);
    var before := t + (INACTIVE_THRESHOLD_DAYS - 1) * DAY_SECONDS;
    var at := t + INACTIVE_THRESHOLD_DAYS * DAY_SECONDS;
    assert ElapsedDays(t, before) == INACTIVE_THRESHOLD_DAYS - 1;
    assert ElapsedDays(t, at) == INACTIVE_THRESHOLD_DAYS;
    InactivationThreshold(L, L.roles.feeEnforcer, a, at);
  }

  /** A successful `forcePayFees` collects exactly what the account owed,
      into the fee address, and is no activity of the account. */
  lemma ForcePayCharges(L: Ledger, caller: Address, a: Address, now: nat)
    requires WellFormed(L)
    requires ForcePayFees(L, caller, a, now).Ok?
    ensures Charged(L, ForcePayFees(L, caller, a, now).value, a, CalcOwedFees(L.Get(a), now))
    ensures ForcePayFees(L, caller, a, now).value.Get(a).lastActivity == L.Get(a).lastActivity
  {
    var acct := L.Get(a);
    if acct.isInactive {
      PayInactiveFeeCharged(L, a, now);
    } else if CanMarkInactive(acct, now) {
      SetInactiveCharged(L, a, now);
    } else {
      var fee := CalcStorageFee(acct, now);
      CollectCharged(L, a, acct.(balance := acct.balance - fee, storageFeeClock := now, storageFeeGraceDays := 0), fee);
    }
  }

  /** `forcePayFees` refuses when there is nothing to collect: an inactive
      account owing no inactivity fee, or an active one that cannot be
      marked and has owed its storage fee for less than a year or owes
      none. */
  lemma ForcePayRefusals(L: Ledger, a: Address, now: nat)
    requires a != ZERO_ADDRESS && L.Get(a).balance > 0
    ensures var acct := L.Get(a);
            ForcePayFees(L, L.roles.feeEnforcer, a, now).Err? <==>
              if acct.isInactive then CalcInactiveFee(acct, now) == 0
              else !CanMarkInactive(acct, now) &&
                   (DaysSincePaidStorageFee(acct, now) < YEAR_DAYS || CalcStorageFee(acct, now) == 0)
  {
  }

  /** After 366 days, forcing the fees of 1000 tokens collects a storage
      fee of 2.50684931 tokens. */
  lemma ForcePayAfterOneYear(L: Ledger, a: Address, t: nat)
    requires WellFormed(L) && a != ZERO_ADDRESS
    requires L.Get(a) == Account(1000 * TOKEN, t, 0, t, false, 0, 0, false)
    requires t > 0
    ensures var r := ForcePayFees(L, L.roles.feeEnforcer, a, t + 366 * DAY_SECONDS);
            && r.Ok?
            && r.value.Balance(a) == 1000 * TOKEN - 250684931
            && r.value.Get(a).storageFeeClock == t + 366 * DAY_SECONDS
  {
    var now := t + 366 * DAY_SECONDS;
    var acct := L.Get(a);
    assert ElapsedDays(t, now) == 366;
    assert DaysSincePaidStorageFee(acct, now) == 366;
    assert DaysSinceActivity(acct, now) == 366;
    assert StorageFee(1000 * TOKEN, 366) == 250684931;
    assert CalcStorageFee(acct, now) == 250684931;
    ForcePayCharges(L, L.roles.feeEnforcer, a, now);
    FeeAddressOwesNothing(L, now);
  }

  /** Any activity of an inactive account (`approve` here) collects the
      inactivity fee it owes and reactivates it with a fresh storage clock. */
  lemma ApproveReactivates(L: Ledger, sender: Address, spender: Address, now: nat)
    requires WellFormed(L)
    requires spender != ZERO_ADDRESS && L.Get(sender).isInactive
    ensures Approve(L, sender, spender, now).Ok?
    ensures var r := Approve(L, sender, spender, now).value;
            && Charged(L, r, sender, CalcOwedFees(L.Get(sender), now))
            && !r.Get(sender).isInactive
            && r.Get(sender).lastActivity == now
            && r.Get(sender).storageFeeClock == now
  {
    TouchIdleCharged(L, sender, now);
  }
}
