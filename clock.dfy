/** The storage-fee clock across a transfer: the recipient never carries
    chargeable days out of a receipt, a first receipt captures the grace
    period of the moment, and the sender's clock moves only when a storage
    fee is realised, so a fee rounded to nothing is still owed later. */
module ClockProofs {
  import opened Fees
  import opened Ledger
  import opened Settlement
  import opened TransferProofs
  import opened Conservation

  /** After a receipt no whole chargeable day is left on the recipient's
      clock: either the clock had none, or it restarts now. */
  lemma ReceiveClockNoChargeableDays(L: Ledger, a: Address, now: nat)
    ensures var acct := ReceiveClock(L, a, now).Get(a);
            Sub0(DaysSincePaidStorageFee(acct, now), acct.storageFeeGraceDays) == 0
  {
  }

  /** A receipt changes at most the clock, the grace days and an unset
      activity time of the recipient, which it sets to now. */
  lemma ReceiveClockRecord(L: Ledger, a: Address, now: nat)
    ensures var acct := L.Get(a);
            var r := ReceiveClock(L, a, now).Get(a);
            && r.(storageFeeClock := acct.storageFeeClock, storageFeeGraceDays := acct.storageFeeGraceDays,
                  lastActivity := acct.lastActivity) == acct
            && (r.lastActivity == acct.lastActivity || (acct.lastActivity == 0 && r.lastActivity == now))
  {
    var acct := L.Get(a);
    var r := ReceiveClock(L, a, now).Get(a);
    if acct.storageFeeClock == 0 {
      assert r == acct.(storageFeeClock := now, storageFeeGraceDays := L.storageFeeGracePeriodDays,
                        lastActivity := if acct.lastActivity == 0 then now else acct.lastActivity);
    } else if !acct.isInactive && Sub0(ElapsedDays(acct.storageFeeClock, now), acct.storageFeeGraceDays) > 0 {
      assert r == acct.(storageFeeClock := now, storageFeeGraceDays := 0);
    } else {
      assert r == acct;
    }
  }

  /** A first credit starts the clock now, with the grace period in force. */
  lemma ReceiveClockCapturesGrace(L: Ledger, a: Address, now: nat)
    requires L.Get(a).storageFeeClock == 0
    ensures ReceiveClock(L, a, now).Get(a).storageFeeClock == now
    ensures ReceiveClock(L, a, now).Get(a).storageFeeGraceDays == L.storageFeeGracePeriodDays
  {
  }

  /** A receipt never moves the clock of an account that had no chargeable
      day and had been credited before. */
  lemma ReceiveClockKeepsSettledClock(L: Ledger, a: Address, now: nat)
    requires L.Get(a).storageFeeClock != 0
    requires Sub0(DaysSincePaidStorageFee(L.Get(a), now), L.Get(a).storageFeeGraceDays) == 0
    ensures ReceiveClock(L, a, now) == L
  {
  }

  /** The recipient of a successful transfer owes no storage fee right
      after it: a dust balance whose fee rounded to 0 has its clock reset. */
  lemma ReceiptLeavesNoChargeableDays(L: Ledger, from: Address, to: Address, value: nat, now: nat)
    requires to != ZERO_ADDRESS && to != L.roles.contractAddress && RouteAllowed(L.roles, from, to)
    requires Transfer(L, from, to, value, now).Ok?
    ensures var acct := Transfer(L, from, to, value, now).value.Get(to);
            && Sub0(DaysSincePaidStorageFee(acct, now), acct.storageFeeGraceDays) == 0
            && CalcStorageFee(acct, now) == 0
  {
    TransferSettled(L, from, to, value, now);
    var L2 := if to == from then SettleSender(L, from, now) else SettleRecipient(SettleSender(L, from, now), to, now);
    var fee := if to == from then 0 else CalcTransferFee(L, from, value);
    var L4 := Move(Move(L2, from, to, value), from, L.roles.feeAddress, fee);
    ReceiveClockNoChargeableDays(L4, to, now);
  }

  /** Settling a recipient that never received funds leaves its clock
      unset: it owes no storage fee, and marking it inactive or charging
      its inactivity fee does not touch the clock. */
  lemma SettleRecipientKeepsUnsetClock(L: Ledger, a: Address, now: nat)
    requires L.Get(a).storageFeeClock == 0
    ensures SettleRecipient(L, a, now).Get(a).storageFeeClock == 0
  {
    var M := MarkIfIdle(L, a, now);
    assert M.Get(a).storageFeeClock == 0;
    assert CalcStorageFee(M.Get(a), now) == 0;
  }

  /** The first receipt of an address captures the grace period in force at
      that moment; a later change of the global grace period touches no
      account record. */
  lemma GraceCapturedOnFirstReceipt(L: Ledger, from: Address, to: Address, value: nat, now: nat)
    requires WellFormed(L)
    requires to != ZERO_ADDRESS && to != L.roles.contractAddress && RouteAllowed(L.roles, from, to)
    requires to != from && L.Get(to).storageFeeClock == 0
    requires Transfer(L, from, to, value, now).Ok?
    ensures var acct := Transfer(L, from, to, value, now).value.Get(to);
            acct.storageFeeClock == now && acct.storageFeeGraceDays == L.storageFeeGracePeriodDays
  {
    TransferSettled(L, from, to, value, now);
    var L1 := SettleSender(L, from, now);
    SettleSenderEffect(L, from, now);
    assert L1.Get(to).storageFeeClock == 0;
    var L2 := SettleRecipient(L1, to, now);
    SettleRecipientKeepsUnsetClock(L1, to, now);
    var fee := CalcTransferFee(L, from, value);
    var L4 := Move(Move(L2, from, to, value), from, L.roles.feeAddress, fee);
    assert L4.Get(to).storageFeeClock == 0;
    ReceiveClockCapturesGrace(L4, to, now);
  }

  /** Changing the grace period touches no account record, so the grace
      days an address has captured stay as they are. */
  lemma GraceChangeKeepsCapturedGrace(L: Ledger, caller: Address, days: nat)
    requires SetStorageFeeGracePeriodDays(L, caller, days).Ok?
    ensures SetStorageFeeGracePeriodDays(L, caller, days).value.accounts == L.accounts
    ensures SetStorageFeeGracePeriodDays(L, caller, days).value.storageFeeGracePeriodDays == days
  {
  }

  /** A transfer moves the sender's storage clock to now exactly when it
      realised a storage fee for an account in good standing; a fee that
      rounds to nothing leaves the clock where it was. */
  lemma SenderClockMovesOnlyWithFee(L: Ledger, from: Address, to: Address, value: nat, now: nat)
    requires WellFormed(L)
    requires to != ZERO_ADDRESS && to != L.roles.contractAddress && RouteAllowed(L.roles, from, to)
    requires to != from
    requires !L.Get(from).isInactive && !CanMarkInactive(L.Get(from), now)
    requires Transfer(L, from, to, value, now).Ok?
    ensures Transfer(L, from, to, value, now).value.Get(from).storageFeeClock ==
              if CalcStorageFee(L.Get(from), now) > 0 then now else L.Get(from).storageFeeClock
  {
    TransferSettled(L, from, to, value, now);
    var L1 := SettleSender(L, from, now);
    SettleSenderEffect(L, from, now);
    SettleSenderConserves(L, from, now);
    var L2 := SettleRecipient(L1, to, now);
    SettleRecipientEffect(L1, to, now);
    assert L2.Get(from).storageFeeClock == L1.Get(from).storageFeeClock;
    var fee := CalcTransferFee(L, from, value);
    var L4 := Move(Move(L2, from, to, value), from, L.roles.feeAddress, fee);
    assert L4.Get(from).storageFeeClock == L1.Get(from).storageFeeClock;
  }

  /** An account that keeps transacting owes a positive storage fee as soon
      as a whole chargeable day has passed on its clock, if it holds at
      least 146000 units: small transfers that realise no fee do not reset
      the clock, so they cannot dodge the fee. */
  lemma StorageFeeDueAfterChargeableDay(acct: Account, now: nat)
    requires !acct.isInactive && !acct.isFeeExempt
    requires acct.balance >= YEAR_RATE_DENOMINATOR / STORAGE_FEE_BASIS_POINTS
    requires DaysSinceActivity(acct, now) < INACTIVE_THRESHOLD_DAYS
    requires Sub0(DaysSincePaidStorageFee(acct, now), acct.storageFeeGraceDays) >= 1
    ensures CalcStorageFee(acct, now) >= 1
  {
    StorageFeePositiveAfterOneDay(acct.balance, Sub0(DaysSincePaidStorageFee(acct, now), acct.storageFeeGraceDays));
  }

  /** Lowering the balance never raises the storage fee. */
  lemma CalcStorageFeeMonotoneInBalance(acct: Account, balance: nat, now: nat)
    requires balance <= acct.balance
    ensures CalcStorageFee(acct.(balance := balance), now) <= CalcStorageFee(acct, now)
  {
    var lower := acct.(balance := balance);
    if !acct.isInactive && !acct.isFeeExempt {
      var days := Sub0(DaysSincePaidStorageFee(acct, now), acct.storageFeeGraceDays);
      StorageFeeMonotoneInBalance(balance, acct.balance, ChargedStorageDays(days, DaysSinceActivity(acct, now)));
    }
  }

  /** A settled sender owes nothing more at the same instant. */
  lemma SettledSenderOwesNothing(L: Ledger, a: Address, now: nat)
    requires WellFormed(L)
    ensures var acct := SettleSender(L, a, now).Get(a);
            && !acct.isInactive && acct.lastActivity == now
            && CalcStorageFee(acct, now) == 0
  {
    var acct := L.Get(a);
    var S := SettleSender(L, a, now);
    SettleSenderEffect(L, a, now);
    if acct.isInactive || CanMarkInactive(acct, now) {
      TouchIdleCharged(L, a, now);
      var T := Touch(L, a, now);
      assert DaysSincePaidStorageFee(T.Get(a), now) == 0;
      assert PayStorageFee(T, a, now) == T;
    } else {
      TouchPlain(L, a, now);
      StorageFeeAfterTouch(acct, now);
      var T := Touch(L, a, now);
      var fee := CalcStorageFee(T.Get(a), now);
      if fee == 0 {
        assert S == T;
      } else {
        assert S.Get(a).storageFeeClock == now;
        assert DaysSincePaidStorageFee(S.Get(a), now) == 0;
      }
    }
  }

  /** A record in good standing owes nothing once its storage fee is
      nothing and its activity is now, and lowering its balance keeps it so. */
  lemma LowerBalanceOwesNothing(S: Account, balance: nat, now: nat)
    requires !S.isInactive && S.lastActivity == now && CalcStorageFee(S, now) == 0
    requires balance <= S.balance
    ensures CalcOwedFees(S.(balance := balance), now) == 0
  {
    CalcStorageFeeMonotoneInBalance(S, balance, now);
    assert DaysSinceActivity(S.(balance := balance), now) == 0;
  }

  /** Between the sender's settlement and the end of a transfer to someone
      else, the sender's record changes only in balance, and the balance
      does not grow unless the sender is the fee address. */
  lemma SenderRecordAfterTransfer(L: Ledger, from: Address, to: Address, value: nat, now: nat)
    requires WellFormed(L)
    requires to != ZERO_ADDRESS && to != L.roles.contractAddress && RouteAllowed(L.roles, from, to)
    requires to != from
    requires Transfer(L, from, to, value, now).Ok?
    ensures var r := Transfer(L, from, to, value, now).value;
            var S := SettleSender(L, from, now).Get(from);
            && r.Get(from) == S.(balance := r.Balance(from))
            && (from != L.roles.feeAddress ==> r.Balance(from) <= S.balance)
  {
    var F := L.roles.feeAddress;
    TransferSettled(L, from, to, value, now);
    var L1 := SettleSender(L, from, now);
    var L2 := SettleRecipient(L1, to, now);
    SettleSenderConserves(L, from, now);
    SettleRecipientEffect(L1, to, now);
    var fee := CalcTransferFee(L, from, value);
    var L4 := Move(Move(L2, from, to, value), from, F, fee);
    assert L4.Get(from) == L1.Get(from).(balance := L4.Balance(from));
  }

  /** After a self-transfer the sender's record is its settled record,
      with at most its clock restarted. */
  lemma SelfTransferRecord(L: Ledger, from: Address, value: nat, now: nat)
    requires WellFormed(L)
    requires from != ZERO_ADDRESS && from != L.roles.contractAddress && RouteAllowed(L.roles, from, from)
    requires Transfer(L, from, from, value, now).Ok?
    ensures var r := Transfer(L, from, from, value, now).value;
            var S := SettleSender(L, from, now).Get(from);
            && r.Get(from).(storageFeeClock := S.storageFeeClock, storageFeeGraceDays := S.storageFeeGraceDays,
                            lastActivity := S.lastActivity) == S
            && r.Get(from).lastActivity == now && !r.Get(from).isInactive
            && Sub0(DaysSincePaidStorageFee(r.Get(from), now), r.Get(from).storageFeeGraceDays) == 0
  {
    TransferSettled(L, from, from, value, now);
    var L1 := SettleSender(L, from, now);
    var L4 := Move(Move(L1, from, from, value), from, L.roles.feeAddress, 0);
    assert L4.Balance(from) == L1.Balance(from);
    assert L4.Get(from) == L1.Get(from);
    SettledSenderOwesNothing(L, from, now);
    ReceiveClockNoChargeableDays(L4, from, now);
    ReceiveClockRecord(L4, from, now);
  }

  /** After a successful transfer the sender owes no fee at all: it settled
      everything before sending, and sending only lowers its balance. */
  lemma TransferSettlesSender(L: Ledger, from: Address, to: Address, value: nat, now: nat)
    requires WellFormed(L)
    requires to != ZERO_ADDRESS && to != L.roles.contractAddress && RouteAllowed(L.roles, from, to)
    requires Transfer(L, from, to, value, now).Ok?
    ensures CalcOwedFees(Transfer(L, from, to, value, now).value.Get(from), now) == 0
  {
    var r := Transfer(L, from, to, value, now).value;
    var S := SettleSender(L, from, now).Get(from);
    SettledSenderOwesNothing(L, from, now);
    if from == L.roles.feeAddress {
      FeeAddressOwesNothing(L, now);
      SettleSenderEffect(L, from, now);
      if to != from {
        SenderRecordAfterTransfer(L, from, to, value, now);
      } else {
        SelfTransferRecord(L, from, value, now);
      }
      assert r.Get(from).isFeeExempt && !r.Get(from).isInactive;
    } else if to != from {
      SenderRecordAfterTransfer(L, from, to, value, now);
      LowerBalanceOwesNothing(S, r.Balance(from), now);
    } else {
      SelfTransferRecord(L, from, value, now);
      assert CalcStorageFee(r.Get(from), now) == 0;
      assert !CanMarkInactive(r.Get(from), now);
    }
  }

  /** Paying one's own storage fee twice at the same instant changes
      nothing the second time. */
  lemma PayOwnStorageFeeIdempotent(L: Ledger, a: Address, now: nat)
    requires WellFormed(L)
    ensures PayOwnStorageFee(PayOwnStorageFee(L, a, now), a, now) == PayOwnStorageFee(L, a, now)
  {
    var S := SettleSender(L, a, now);
    SettledSenderOwesNothing(L, a, now);
    SettledSenderStored(L, a, now);
    SettledSenderIsFixed(S, a, now);
  }

  /** Settling a sender stores its record. */
  lemma SettledSenderStored(L: Ledger, a: Address, now: nat)
    ensures a in SettleSender(L, a, now).accounts
  {
    var T := Touch(L, a, now);
    assert a in T.accounts;
  }

  /** A stored record in good standing, active now and owing no storage
      fee, is left as it is by a sender's settlement. */
  lemma SettledSenderIsFixed(S: Ledger, a: Address, now: nat)
    requires a in S.accounts
    requires !S.Get(a).isInactive && S.Get(a).lastActivity == now && CalcStorageFee(S.Get(a), now) == 0
    ensures SettleSender(S, a, now) == S
  {
    var acct := S.Get(a);
    assert !CanMarkInactive(acct, now);
    TouchPlain(S, a, now);
    assert S.accounts[a := acct.(lastActivity := now)] == S.accounts;
    assert Touch(S, a, now) == S;
  }
}
