/** What every step of the ledger keeps: the balances add up to the same sum
    (a mint raises it by what it creates), and a well-formed ledger stays
    well formed. Each step's lemma is built from the lemmas of the steps it
    is made of. */
module Conservation {
  import opened Fees
  import opened Ledger

  /** `r` holds the same sum of balances as `L`, and is well formed if `L`
      is. */
  ghost predicate Conserves(L: Ledger, r: Ledger) {
    && Total(r.accounts) == Total(L.accounts)
    && (WellFormed(L) ==> WellFormed(r))
  }

  /** Storing a record changes the sum by the change of its balance; a valid
      record that keeps the exemption keeps the ledger well formed. */
  lemma StoreConserves(L: Ledger, a: Address, updated: Account)
    ensures Total(Store(L, a, updated).accounts) + L.Balance(a) == Total(L.accounts) + updated.balance
    ensures WellFormed(L) && AccountValid(updated) && updated.isFeeExempt == L.Get(a).isFeeExempt ==>
              WellFormed(Store(L, a, updated))
  {
    TotalUpdate(L.accounts, a, updated);
  }

  lemma CreditConserves(L: Ledger, a: Address, amount: nat)
    ensures Total(Credit(L, a, amount).accounts) == Total(L.accounts) + amount
    ensures WellFormed(L) ==> WellFormed(Credit(L, a, amount))
  {
    StoreConserves(L, a, L.Get(a).(balance := L.Balance(a) + amount));
  }

  lemma DebitConserves(L: Ledger, a: Address, amount: nat)
    requires amount <= L.Balance(a)
    ensures Total(Debit(L, a, amount).accounts) + amount == Total(L.accounts)
    ensures WellFormed(L) ==> WellFormed(Debit(L, a, amount))
  {
    StoreConserves(L, a, L.Get(a).(balance := L.Balance(a) - amount));
  }

  lemma ReplaceConserves(L: Ledger, a: Address, updated: Account)
    requires updated.balance == L.Balance(a)
    ensures Total(Replace(L, a, updated).accounts) == Total(L.accounts)
    ensures WellFormed(L) && AccountValid(updated) && updated.isFeeExempt == L.Get(a).isFeeExempt ==>
              WellFormed(Replace(L, a, updated))
  {
    StoreConserves(L, a, updated);
  }

  /** What a fee collection takes from `a` reaches the fee address; a record
      that stays valid and keeps its exemption keeps the ledger well formed. */
  lemma CollectConserves(L: Ledger, a: Address, updated: Account, fee: nat)
    requires updated.balance + fee == L.Balance(a)
    requires updated.isFeeExempt == L.Get(a).isFeeExempt
    requires WellFormed(L) ==> AccountValid(updated)
    ensures Conserves(L, Collect(L, a, updated, fee))
  {
    StoreConserves(L, a, updated);
    CreditConserves(Store(L, a, updated), L.roles.feeAddress, fee);
  }

  lemma MoveConserves(L: Ledger, from: Address, to: Address, amount: nat)
    requires amount <= L.Balance(from)
    ensures Conserves(L, Move(L, from, to, amount))
  {
    DebitConserves(L, from, amount);
    CreditConserves(Debit(L, from, amount), to, amount);
  }

  /** Minting raises the sum by what it creates, and keeps the ledger well
      formed while the supply stays within its limit. */
  lemma MintConserves(L: Ledger, a: Address, amount: nat)
    ensures Total(Mint(L, a, amount).accounts) == Total(L.accounts) + amount
    ensures WellFormed(L) && L.totalSupply + amount <= SUPPLY_LIMIT ==> WellFormed(Mint(L, a, amount))
  {
    CreditConserves(L, a, amount);
  }

  lemma PayStorageFeeConserves(L: Ledger, a: Address, now: nat)
    ensures Conserves(L, PayStorageFee(L, a, now))
  {
    var acct := L.Get(a);
    var fee := CalcStorageFee(acct, now);
    if fee != 0 {
      var updated := acct.(balance := acct.balance - fee, storageFeeClock := now, storageFeeGraceDays := 0);
      assert WellFormed(L) ==> AccountValid(acct);
      assert PayStorageFee(L, a, now) == Collect(L, a, updated, fee);
      CollectConserves(L, a, updated, fee);
    }
  }

  lemma SetInactiveConserves(L: Ledger, a: Address, now: nat)
    requires CanMarkInactive(L.Get(a), now)
    ensures Conserves(L, SetInactive(L, a, now))
  {
    var acct := L.Get(a);
    var storageFee := CalcStorageFee(acct, now);
    var snapshot := acct.balance - storageFee;
    var inactiveFee := InactiveFee(snapshot, DaysSinceActivity(acct, now), snapshot, 0);
    var updated := acct.(balance := snapshot - inactiveFee, isInactive := true,
                         inactiveSnapshot := snapshot, inactiveFeePaid := inactiveFee);
    assert AccountValid(updated);
    assert SetInactive(L, a, now) == Collect(L, a, updated, storageFee + inactiveFee);
    CollectConserves(L, a, updated, storageFee + inactiveFee);
  }

  lemma PayInactiveFeeConserves(L: Ledger, a: Address, now: nat)
    requires L.Get(a).isInactive
    ensures Conserves(L, PayInactiveFee(L, a, now))
  {
    var acct := L.Get(a);
    var fee := CalcInactiveFee(acct, now);
    if fee != 0 {
      var updated := acct.(balance := acct.balance - fee, inactiveFeePaid := acct.inactiveFeePaid + fee);
      assert WellFormed(L) ==> AccountValid(acct);
      assert PayInactiveFee(L, a, now) == Collect(L, a, updated, fee);
      CollectConserves(L, a, updated, fee);
    }
  }

  lemma ReactivateConserves(L: Ledger, a: Address, now: nat)
    ensures Conserves(L, Reactivate(L, a, now))
  {
    var acct := L.Get(a);
    ReplaceConserves(L, a, acct.(isInactive := false, inactiveSnapshot := 0, inactiveFeePaid := 0,
                                 storageFeeClock := now, storageFeeGraceDays := L.storageFeeGracePeriodDays));
  }

  lemma MarkIfIdleConserves(L: Ledger, a: Address, now: nat)
    ensures Conserves(L, MarkIfIdle(L, a, now))
  {
    if CanMarkInactive(L.Get(a), now) {
      SetInactiveConserves(L, a, now);
    }
  }

  lemma TouchConserves(L: Ledger, a: Address, now: nat)
    ensures Conserves(L, Touch(L, a, now))
  {
    var L1 := MarkIfIdle(L, a, now);
    MarkIfIdleConserves(L, a, now);
    var L2 := if L1.Get(a).isInactive then Reactivate(PayInactiveFee(L1, a, now), a, now) else L1;
    if L1.Get(a).isInactive {
      PayInactiveFeeConserves(L1, a, now);
      ReactivateConserves(PayInactiveFee(L1, a, now), a, now);
    }
    ReplaceConserves(L2, a, L2.Get(a).(lastActivity := now));
  }

  lemma SettleConserves(L: Ledger, a: Address, now: nat)
    ensures Conserves(L, Settle(L, a, now))
  {
    if L.Get(a).isInactive {
      PayInactiveFeeConserves(L, a, now);
    } else {
      PayStorageFeeConserves(L, a, now);
    }
  }

  lemma SettleSenderConserves(L: Ledger, a: Address, now: nat)
    ensures Conserves(L, SettleSender(L, a, now))
  {
    TouchConserves(L, a, now);
    PayStorageFeeConserves(Touch(L, a, now), a, now);
  }

  lemma SettleRecipientConserves(L: Ledger, a: Address, now: nat)
    ensures Conserves(L, SettleRecipient(L, a, now))
  {
    MarkIfIdleConserves(L, a, now);
    SettleConserves(MarkIfIdle(L, a, now), a, now);
  }

  lemma ReceiveClockConserves(L: Ledger, a: Address, now: nat)
    ensures Conserves(L, ReceiveClock(L, a, now))
  {
    var acct := L.Get(a);
    if acct.storageFeeClock == 0 {
      ReplaceConserves(L, a, acct.(storageFeeClock := now, storageFeeGraceDays := L.storageFeeGracePeriodDays,
                                   lastActivity := if acct.lastActivity == 0 then now else acct.lastActivity));
    } else if !acct.isInactive && Sub0(ElapsedDays(acct.storageFeeClock, now), acct.storageFeeGraceDays) > 0 {
      ReplaceConserves(L, a, acct.(storageFeeClock := now, storageFeeGraceDays := 0));
    }
  }

  /** Storing a valid record keeps every record valid. */
  lemma StoreKeepsRecordsValid(L: Ledger, a: Address, updated: Account)
    requires forall x :: AccountValid(L.Get(x))
    requires AccountValid(updated)
    ensures forall x :: AccountValid(Store(L, a, updated).Get(x))
  {
  }

  /** The deployed ledger holds nothing and exempts its roles. */
  lemma InitialValid(roles: Roles)
    requires RolesValid(roles)
    ensures Valid(Initial(roles))
  {
    var exempt := NO_ACCOUNT.(isFeeExempt := true);
    var L0 := Ledger(map[], 0, DEFAULT_TRANSFER_FEE_BASIS_POINTS, 0, roles);
    var L1 := Store(L0, roles.owner, exempt);
    var L2 := Store(L1, roles.unbackedTreasury, exempt);
    var L3 := Store(L2, roles.backedTreasury, exempt);
    var L4 := Store(L3, roles.feeAddress, exempt);
    StoreConserves(L0, roles.owner, exempt);
    StoreConserves(L1, roles.unbackedTreasury, exempt);
    StoreConserves(L2, roles.backedTreasury, exempt);
    StoreConserves(L3, roles.feeAddress, exempt);
    StoreConserves(L4, roles.redeemAddress, exempt);
    var r := Store(L4, roles.redeemAddress, exempt);
    StoreKeepsRecordsValid(L0, roles.owner, exempt);
    StoreKeepsRecordsValid(L1, roles.unbackedTreasury, exempt);
    StoreKeepsRecordsValid(L2, roles.backedTreasury, exempt);
    StoreKeepsRecordsValid(L3, roles.feeAddress, exempt);
    StoreKeepsRecordsValid(L4, roles.redeemAddress, exempt);
    assert RolesExempt(r);
    assert Initial(roles) == r;
  }
}
