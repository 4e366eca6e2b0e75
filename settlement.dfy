/** What settling an account does to the ledger: the fees it owes move to
    the fee address and nothing else changes balance, and the record of the
    settled account changes only in the fields the fee it paid accounts
    for. */
module Settlement {
  import opened Fees
  import opened Ledger

  /** `r` is `L` after `a` paid `fee` to the fee address: every other record
      keeps all but its balance, and only the balances of `a` and of the fee
      address move. */
  ghost predicate Charged(L: Ledger, r: Ledger, a: Address, fee: nat) {
    && r == L.(accounts := r.accounts)
    && SameRecordsExcept(L, r, a)
    && (forall x :: r.Balance(x) ==
          L.Balance(x) - (if x == a then fee else 0) + (if x == L.roles.feeAddress then fee else 0))
  }

  /** The fee address, being exempt and never inactive, owes nothing. */
  lemma FeeAddressOwesNothing(L: Ledger, now: nat)
    requires WellFormed(L)
    ensures CalcOwedFees(L.Get(L.roles.feeAddress), now) == 0
    ensures !CanMarkInactive(L.Get(L.roles.feeAddress), now)
  {
    assert AccountValid(L.Get(L.roles.feeAddress));
  }

  /** Recording activity now does not change the storage fee of an account
      that is neither inactive nor markable: either fewer than 1095 idle days
      were being excluded anyway, or the fee was already the whole balance. */
  lemma StorageFeeAfterTouch(acct: Account, now: nat)
    requires !acct.isInactive && !CanMarkInactive(acct, now)
    ensures CalcStorageFee(acct.(lastActivity := now), now) == CalcStorageFee(acct, now)
  {
    var touched := acct.(lastActivity := now);
    assert DaysSinceActivity(touched, now) == 0;
    if !acct.isFeeExempt && acct.balance > 0 && DaysSinceActivity(acct, now) >= INACTIVE_THRESHOLD_DAYS {
      var days := Sub0(DaysSincePaidStorageFee(acct, now), acct.storageFeeGraceDays);
      StorageFeeMonotone(acct.balance, ChargedStorageDays(days, DaysSinceActivity(acct, now)), days);
    }
  }

  /** Charges compose: a charge followed by record-only changes is the same
      charge. */
  lemma ChargedThenReplaced(L: Ledger, M: Ledger, r: Ledger, a: Address, fee: nat)
    requires Charged(L, M, a, fee) && Charged(M, r, a, 0)
    ensures Charged(L, r, a, fee)
  {
  }

  lemma ReplaceCharged(L: Ledger, a: Address, updated: Account)
    requires updated.balance == L.Balance(a)
    ensures Charged(L, Replace(L, a, updated), a, 0)
  {
  }

  lemma CollectCharged(L: Ledger, a: Address, updated: Account, fee: nat)
    requires updated.balance + fee == L.Balance(a)
    ensures Charged(L, Collect(L, a, updated, fee), a, fee)
  {
  }

  /** Paying the inactivity fee charges what the account owed. */
  lemma PayInactiveFeeCharged(L: Ledger, a: Address, now: nat)
    requires L.Get(a).isInactive
    ensures Charged(L, PayInactiveFee(L, a, now), a, CalcOwedFees(L.Get(a), now))
    ensures PayInactiveFee(L, a, now).Get(a).isInactive
    ensures PayInactiveFee(L, a, now).Get(a).lastActivity == L.Get(a).lastActivity
  {
    var acct := L.Get(a);
    var fee := CalcInactiveFee(acct, now);
    if fee != 0 {
      CollectCharged(L, a, acct.(balance := acct.balance - fee, inactiveFeePaid := acct.inactiveFeePaid + fee), fee);
    }
  }

  /** Marking an account inactive charges everything it owed, after which
      no inactivity fee remains due at the same instant. */
  lemma SetInactiveCharged(L: Ledger, a: Address, now: nat)
    requires WellFormed(L)
    requires CanMarkInactive(L.Get(a), now)
    ensures Charged(L, SetInactive(L, a, now), a, CalcOwedFees(L.Get(a), now))
    ensures SetInactive(L, a, now).Get(a).isInactive
    ensures SetInactive(L, a, now).Get(a).lastActivity == L.Get(a).lastActivity
    ensures CalcInactiveFee(SetInactive(L, a, now).Get(a), now) == 0
  {
    var acct := L.Get(a);
    FeeAddressOwesNothing(L, now);
    assert a != L.roles.feeAddress;
    var storageFee := CalcStorageFee(acct, now);
    var snapshot := acct.balance - storageFee;
    var inactiveFee := InactiveFee(snapshot, DaysSinceActivity(acct, now), snapshot, 0);
    var updated := acct.(balance := snapshot - inactiveFee, isInactive := true,
                         inactiveSnapshot := snapshot, inactiveFeePaid := inactiveFee);
    CollectCharged(L, a, updated, storageFee + inactiveFee);
    assert SetInactive(L, a, now).Get(a) == updated;
    InactiveFeeSettles(snapshot, DaysSinceActivity(acct, now), snapshot, 0);
  }

  /** Touching an account charges what it owed if it was inactive or
      markable, and leaves it active with a fresh storage clock. */
  lemma TouchIdleCharged(L: Ledger, a: Address, now: nat)
    requires WellFormed(L)
    requires L.Get(a).isInactive || CanMarkInactive(L.Get(a), now)
    ensures Charged(L, Touch(L, a, now), a, CalcOwedFees(L.Get(a), now))
    ensures !Touch(L, a, now).Get(a).isInactive
    ensures Touch(L, a, now).Get(a).lastActivity == now
    ensures Touch(L, a, now).Get(a).storageFeeClock == now
  {
    var acct := L.Get(a);
    var owed := CalcOwedFees(acct, now);
    var L1 := MarkIfIdle(L, a, now);
    if acct.isInactive {
      assert L1 == L;
      PayInactiveFeeCharged(L, a, now);
    } else {
      SetInactiveCharged(L, a, now);
      PayInactiveFeeCharged(L1, a, now);
      ChargedThenReplaced(L, L1, PayInactiveFee(L1, a, now), a, owed);
    }
    var P := PayInactiveFee(L1, a, now);
    assert Charged(L, P, a, owed);
    var L2 := Reactivate(P, a, now);
    ReplaceCharged(P, a, L2.Get(a));
    ChargedThenReplaced(L, P, L2, a, owed);
    ReplaceCharged(L2, a, L2.Get(a).(lastActivity := now));
    ChargedThenReplaced(L, L2, Replace(L2, a, L2.Get(a).(lastActivity := now)), a, owed);
  }

  /** Touching an account that is neither inactive nor markable only
      records the activity time. */
  lemma TouchPlain(L: Ledger, a: Address, now: nat)
    requires !L.Get(a).isInactive && !CanMarkInactive(L.Get(a), now)
    ensures Touch(L, a, now) == Replace(L, a, L.Get(a).(lastActivity := now))
  {
  }

  /** Settling the sender collects exactly the fees it owes, leaves it
      active with its activity time at `now`, and moves its storage clock
      only if a storage fee was realised. */
  lemma SettleSenderEffect(L: Ledger, a: Address, now: nat)
    requires WellFormed(L)
    ensures Charged(L, SettleSender(L, a, now), a, CalcOwedFees(L.Get(a), now))
    ensures !SettleSender(L, a, now).Get(a).isInactive
    ensures SettleSender(L, a, now).Get(a).lastActivity == now
    ensures var acct := L.Get(a);
            !acct.isInactive && !CanMarkInactive(acct, now) ==>
              SettleSender(L, a, now).Get(a).storageFeeClock ==
                (if CalcStorageFee(acct, now) > 0 then now else acct.storageFeeClock)
  {
    var acct := L.Get(a);
    var owed := CalcOwedFees(acct, now);
    var T := Touch(L, a, now);
    if acct.isInactive || CanMarkInactive(acct, now) {
      TouchIdleCharged(L, a, now);
      assert DaysSincePaidStorageFee(T.Get(a), now) == 0;
      assert PayStorageFee(T, a, now) == T;
    } else {
      TouchPlain(L, a, now);
      ReplaceCharged(L, a, acct.(lastActivity := now));
      StorageFeeAfterTouch(acct, now);
      var fee := CalcStorageFee(T.Get(a), now);
      assert fee == owed;
      if fee != 0 {
        CollectCharged(T, a, T.Get(a).(balance := T.Get(a).balance - fee, storageFeeClock := now,
                                        storageFeeGraceDays := 0), fee);
      }
    }
  }

  /** Settling a recipient collects exactly the fees it owes; an idle
      recipient ends up inactive, and its activity time does not move. */
  lemma SettleRecipientEffect(L: Ledger, a: Address, now: nat)
    requires WellFormed(L)
    ensures Charged(L, SettleRecipient(L, a, now), a, CalcOwedFees(L.Get(a), now))
    ensures L.Get(a).isInactive || CanMarkInactive(L.Get(a), now) ==> SettleRecipient(L, a, now).Get(a).isInactive
    ensures SettleRecipient(L, a, now).Get(a).lastActivity == L.Get(a).lastActivity
  {
    var acct := L.Get(a);
    var L1 := MarkIfIdle(L, a, now);
    if acct.isInactive {
      assert L1 == L;
      PayInactiveFeeCharged(L, a, now);
    } else if CanMarkInactive(acct, now) {
      SetInactiveCharged(L, a, now);
      assert Settle(L1, a, now) == L1;
    } else {
      assert L1 == L;
      var fee := CalcStorageFee(acct, now);
      if fee != 0 {
        CollectCharged(L, a, acct.(balance := acct.balance - fee, storageFeeClock := now, storageFeeGraceDays := 0), fee);
      }
    }
  }
}
