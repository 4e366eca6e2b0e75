/** Properties of `transfer`: it agrees exactly with `simulateTransfer`,
    the send-all amount can be sent, the storage clock moves only when a
    fee is realised, and a credit leaves no chargeable storage day behind. */
module TransferProofs {
  import opened Fees
  import opened Ledger
  import opened Settlement
  import opened Conservation

  /** After both sides settle, every balance is the simulated one: each
      side has paid what it owed to the fee address. */
  lemma SettledBalances(L: Ledger, from: Address, to: Address, now: nat)
    requires WellFormed(L)
    ensures var L1 := SettleSender(L, from, now);
            var L2 := if to == from then L1 else SettleRecipient(L1, to, now);
            var oF := CalcOwedFees(L.Get(from), now);
            var oT := if to == from then 0 else CalcOwedFees(L.Get(to), now);
            && L2 == L.(accounts := L2.accounts)
            && WellFormed(L2)
            && forall x :: L2.Balance(x) ==
                 L.Balance(x) - (if x == from then oF else 0) - (if x == to && to != from then oT else 0)
                 + (if x == L.roles.feeAddress then oF + oT else 0)
  {
    var F := L.roles.feeAddress;
    var L1 := SettleSender(L, from, now);
    SettleSenderEffect(L, from, now);
    SettleSenderConserves(L, from, now);
    if to != from {
      SettleRecipientEffect(L1, to, now);
      SettleRecipientConserves(L1, to, now);
      if to == F {
        FeeAddressOwesNothing(L, now);
        FeeAddressOwesNothing(L1, now);
      } else {
        assert L1.Get(to) == L.Get(to);
      }
    }
  }

  /** `SettledBalances` with the fees owed named, and only the balances. */
  lemma SettledBalancesOwed(L: Ledger, from: Address, to: Address, now: nat, oF: nat, oT: nat)
    requires WellFormed(L)
    requires oF == CalcOwedFees(L.Get(from), now)
    requires oT == if to == from then 0 else CalcOwedFees(L.Get(to), now)
    ensures var L2 := if to == from then SettleSender(L, from, now) else SettleRecipient(SettleSender(L, from, now), to, now);
            && L2.roles == L.roles
            && forall x :: L2.Balance(x) ==
                 L.Balance(x) - (if x == from then oF else 0) - (if x == to && to != from then oT else 0)
                 + (if x == L.roles.feeAddress then oF + oT else 0)
  {
    SettledBalances(L, from, to, now);
  }

  /** The simulation in terms of the fees owed and the settled balances. */
  lemma SimulateSettled(L: Ledger, from: Address, to: Address, value: nat, now: nat,
                        oF: nat, oT: nat, fee: nat, settledFrom: int, settledTo: int)
    requires oF == CalcOwedFees(L.Get(from), now)
    requires oT == if to == from then 0 else CalcOwedFees(L.Get(to), now)
    requires fee == if to == from then 0 else CalcTransferFee(L, from, value)
    requires settledFrom == L.Balance(from) - oF + (if from == L.roles.feeAddress then oF + oT else 0)
    requires settledTo == L.Balance(to) - oT + (if to == L.roles.feeAddress then oF + oT else 0)
    ensures settledFrom < value + fee ==> Simulate(L, from, to, value, now) == Err(InsufficientBalance)
    ensures settledFrom >= value + fee && to == from ==>
              Simulate(L, from, to, value, now) == Ok(Simulation(oF, 0, 0, settledFrom, settledFrom))
    ensures settledFrom >= value + fee && to != from ==>
              Simulate(L, from, to, value, now) ==
                Ok(Simulation(oF, oT, fee, settledFrom - value - fee + (if from == L.roles.feeAddress then fee else 0),
                              settledTo + value + (if to == L.roles.feeAddress then fee else 0)))
  {
  }

  /** The transfer in terms of the settled state. */
  lemma TransferSettled(L: Ledger, from: Address, to: Address, value: nat, now: nat)
    requires to != ZERO_ADDRESS && to != L.roles.contractAddress && RouteAllowed(L.roles, from, to)
    ensures var L1 := SettleSender(L, from, now);
            var L2 := if to == from then L1 else SettleRecipient(L1, to, now);
            var fee := if to == from then 0 else CalcTransferFee(L, from, value);
            Transfer(L, from, to, value, now) ==
              if L2.Balance(from) < value + fee then Err(InsufficientBalance)
              else Ok(ReceiveClock(Move(Move(L2, from, to, value), from, L.roles.feeAddress, fee), to, now))
  {
  }

  /** The two moves of a transfer and the recipient's clock, on balances. */
  lemma MovedBalances(L2: Ledger, from: Address, to: Address, value: nat, fee: nat, now: nat)
    requires value + fee <= L2.Balance(from)
    ensures var r := ReceiveClock(Move(Move(L2, from, to, value), from, L2.roles.feeAddress, fee), to, now);
            forall x :: r.Balance(x) == L2.Balance(x) - (if x == from then value + fee else 0)
                          + (if x == to then value else 0) + (if x == L2.roles.feeAddress then fee else 0)
  {
  }

  /** Settling and then moving, on balances: the fees owed go to the fee
      address, then the value to the recipient and the transfer fee to the
      fee address. */
  lemma SettledThenMoved(L: Ledger, L2: Ledger, r: Ledger, from: Address, to: Address, F: Address,
                         value: nat, fee: nat, oF: nat, oT: nat)
    requires to == from ==> oT == 0 && fee == 0
    requires forall x :: L2.Balance(x) ==
               L.Balance(x) - (if x == from then oF else 0) - (if x == to && to != from then oT else 0)
               + (if x == F then oF + oT else 0)
    requires forall x :: r.Balance(x) == L2.Balance(x) - (if x == from then value + fee else 0)
               + (if x == to then value else 0) + (if x == F then fee else 0)
    ensures var settledFrom := L.Balance(from) - oF + (if from == F then oF + oT else 0);
            var settledTo := L.Balance(to) - oT + (if to == F then oF + oT else 0);
            && L2.Balance(from) == settledFrom
            && r.Balance(from) == (if to == from then settledFrom
                                   else settledFrom - value - fee + (if from == F then fee else 0))
            && r.Balance(to) == (if to == from then settledFrom
                                 else settledTo + value + (if to == F then fee else 0))
            && (forall x :: x != from && x != to && x != F ==> r.Balance(x) == L.Balance(x))
            && (F != from && F != to ==> r.Balance(F) == L.Balance(F) + oF + oT + fee)
  {
    assert L2.Balance(from) == L.Balance(from) - oF + (if from == F then oF + oT else 0);
    assert L2.Balance(to) == L.Balance(to) - (if to == from then oF else oT) + (if to == F then oF + oT else 0);
  }

  /** The balances a successful transfer leaves are the simulated ones. */
  lemma SimulationAgrees(L: Ledger, r: Ledger, s: Simulation, from: Address, to: Address, F: Address,
                         value: nat, fee: nat, oF: nat, oT: nat, settledFrom: nat, settledTo: nat)
    requires settledFrom >= value + fee
    requires to == from ==> s == Simulation(oF, 0, 0, settledFrom, settledFrom)
    requires to != from ==> s == Simulation(oF, oT, fee, settledFrom - value - fee + (if from == F then fee else 0),
                                            settledTo + value + (if to == F then fee else 0))
    requires to == from ==> oT == 0 && fee == 0
    requires r.Balance(from) == (if to == from then settledFrom
                                 else settledFrom - value - fee + (if from == F then fee else 0))
    requires r.Balance(to) == (if to == from then settledFrom
                               else settledTo + value + (if to == F then fee else 0))
    requires F != from && F != to ==> r.Balance(F) == L.Balance(F) + oF + oT + fee
    ensures r.Balance(from) == s.balanceFrom
    ensures r.Balance(to) == s.balanceTo
    ensures F != from && F != to ==> r.Balance(F) == L.Balance(F) + s.feesFrom + s.feesTo + s.transferFee
  {
  }

  /** The transfer fails exactly when the settled sender cannot cover the
      value and the transfer fee. */
  lemma TransferSucceedsIff(L: Ledger, from: Address, to: Address, value: nat, now: nat,
                            fee: nat, settledFrom: int, L2: Ledger)
    requires to != ZERO_ADDRESS && to != L.roles.contractAddress && RouteAllowed(L.roles, from, to)
    requires fee == if to == from then 0 else CalcTransferFee(L, from, value)
    requires L2 == if to == from then SettleSender(L, from, now) else SettleRecipient(SettleSender(L, from, now), to, now)
    requires L2.Balance(from) == settledFrom
    ensures Transfer(L, from, to, value, now).Ok? <==> settledFrom >= value + fee
  {
    TransferSettled(L, from, to, value, now);
  }

  /** The balances after settling and moving, with no transfer in sight. */
  lemma SettledMovedBalances(L: Ledger, L2: Ledger, from: Address, to: Address, value: nat, now: nat,
                             oF: nat, oT: nat, fee: nat)
    requires L2.roles == L.roles
    requires forall x :: L2.Balance(x) ==
               L.Balance(x) - (if x == from then oF else 0) - (if x == to && to != from then oT else 0)
               + (if x == L.roles.feeAddress then oF + oT else 0)
    requires to == from ==> oT == 0 && fee == 0
    requires L.Balance(from) - oF + (if from == L.roles.feeAddress then oF + oT else 0) >= value + fee
    ensures value + fee <= L2.Balance(from)
    ensures var F := L.roles.feeAddress;
            var r := ReceiveClock(Move(Move(L2, from, to, value), from, F, fee), to, now);
            var settledFrom := L.Balance(from) - oF + (if from == F then oF + oT else 0);
            var settledTo := L.Balance(to) - oT + (if to == F then oF + oT else 0);
            && r.Balance(from) == (if to == from then settledFrom
                                   else settledFrom - value - fee + (if from == F then fee else 0))
            && r.Balance(to) == (if to == from then settledFrom
                                 else settledTo + value + (if to == F then fee else 0))
            && (forall x :: x != from && x != to && x != F ==> r.Balance(x) == L.Balance(x))
            && (F != from && F != to ==> r.Balance(F) == L.Balance(F) + oF + oT + fee)
  {
    var F := L.roles.feeAddress;
    assert L2.Balance(from) == L.Balance(from) - oF + (if from == F then oF + oT else 0);
    var r := ReceiveClock(Move(Move(L2, from, to, value), from, F, fee), to, now);
    MovedBalances(L2, from, to, value, fee, now);
    SettledThenMoved(L, L2, r, from, to, F, value, fee, oF, oT);
  }

  /** A successful transfer in terms of the fees owed and the settled
      balances. */
  lemma TransferBalances(L: Ledger, from: Address, to: Address, value: nat, now: nat,
                         oF: nat, oT: nat, fee: nat, settledFrom: int, settledTo: int, L2: Ledger)
    requires to != ZERO_ADDRESS && to != L.roles.contractAddress && RouteAllowed(L.roles, from, to)
    requires to == from ==> oT == 0 && fee == 0
    requires fee == if to == from then 0 else CalcTransferFee(L, from, value)
    requires settledFrom == L.Balance(from) - oF + (if from == L.roles.feeAddress then oF + oT else 0)
    requires settledTo == L.Balance(to) - oT + (if to == L.roles.feeAddress then oF + oT else 0)
    requires settledFrom >= value + fee
    requires L2 == if to == from then SettleSender(L, from, now) else SettleRecipient(SettleSender(L, from, now), to, now)
    requires L2.roles == L.roles
    requires forall x :: L2.Balance(x) ==
               L.Balance(x) - (if x == from then oF else 0) - (if x == to && to != from then oT else 0)
               + (if x == L.roles.feeAddress then oF + oT else 0)
    ensures Transfer(L, from, to, value, now).Ok?
    ensures var r := Transfer(L, from, to, value, now).value;
            var F := L.roles.feeAddress;
            && r.Balance(from) == (if to == from then settledFrom
                                   else settledFrom - value - fee + (if from == F then fee else 0))
            && r.Balance(to) == (if to == from then settledFrom
                                 else settledTo + value + (if to == F then fee else 0))
            && (forall x :: x != from && x != to && x != F ==> r.Balance(x) == L.Balance(x))
            && (F != from && F != to ==> r.Balance(F) == L.Balance(F) + oF + oT + fee)
  {
    var F := L.roles.feeAddress;
    SettledMovedBalances(L, L2, from, to, value, now, oF, oT, fee);
    var r := ReceiveClock(Move(Move(L2, from, to, value), from, F, fee), to, now);
    assert Transfer(L, from, to, value, now) == Ok(r) by {
      TransferSettled(L, from, to, value, now);
    }
  }

  /** Balances that follow the settled amounts are the simulated ones. */
  lemma AgreesWithSimulation(L: Ledger, r: Ledger, from: Address, to: Address, value: nat, now: nat,
                             oF: nat, oT: nat, fee: nat, settledFrom: nat, settledTo: nat)
    requires oF == CalcOwedFees(L.Get(from), now)
    requires oT == if to == from then 0 else CalcOwedFees(L.Get(to), now)
    requires fee == if to == from then 0 else CalcTransferFee(L, from, value)
    requires settledFrom == L.Balance(from) - oF + (if from == L.roles.feeAddress then oF + oT else 0)
    requires settledTo == L.Balance(to) - oT + (if to == L.roles.feeAddress then oF + oT else 0)
    requires settledFrom >= value + fee
    requires var F := L.roles.feeAddress;
             && r.Balance(from) == (if to == from then settledFrom
                                    else settledFrom - value - fee + (if from == F then fee else 0))
             && r.Balance(to) == (if to == from then settledFrom
                                  else settledTo + value + (if to == F then fee else 0))
             && (F != from && F != to ==> r.Balance(F) == L.Balance(F) + oF + oT + fee)
    ensures Simulate(L, from, to, value, now).Ok?
    ensures var s := Simulate(L, from, to, value, now).value;
            && r.Balance(from) == s.balanceFrom
            && r.Balance(to) == s.balanceTo
            && (L.roles.feeAddress != from && L.roles.feeAddress != to ==>
                  r.Balance(L.roles.feeAddress) ==
                    L.Balance(L.roles.feeAddress) + s.feesFrom + s.feesTo + s.transferFee)
  {
    SimulateSettled(L, from, to, value, now, oF, oT, fee, settledFrom, settledTo);
    var s := Simulate(L, from, to, value, now).value;
    SimulationAgrees(L, r, s, from, to, L.roles.feeAddress, value, fee, oF, oT, settledFrom, settledTo);
  }

  /** The balances after a transfer the simulation accepts are the simulated
      ones, once the settled balances are known. */
  lemma TransferMatchesSimulateBalances(L: Ledger, from: Address, to: Address, value: nat, now: nat,
                                        oF: nat, oT: nat, fee: nat, settledFrom: nat, settledTo: nat, L2: Ledger)
    requires to != ZERO_ADDRESS && to != L.roles.contractAddress && RouteAllowed(L.roles, from, to)
    requires oF == CalcOwedFees(L.Get(from), now)
    requires oT == if to == from then 0 else CalcOwedFees(L.Get(to), now)
    requires fee == if to == from then 0 else CalcTransferFee(L, from, value)
    requires settledFrom == L.Balance(from) - oF + (if from == L.roles.feeAddress then oF + oT else 0)
    requires settledTo == L.Balance(to) - oT + (if to == L.roles.feeAddress then oF + oT else 0)
    requires settledFrom >= value + fee
    requires L2 == if to == from then SettleSender(L, from, now) else SettleRecipient(SettleSender(L, from, now), to, now)
    requires L2.roles == L.roles
    requires forall x :: L2.Balance(x) ==
               L.Balance(x) - (if x == from then oF else 0) - (if x == to && to != from then oT else 0)
               + (if x == L.roles.feeAddress then oF + oT else 0)
    ensures Transfer(L, from, to, value, now).Ok? && Simulate(L, from, to, value, now).Ok?
    ensures var r := Transfer(L, from, to, value, now).value;
            var s := Simulate(L, from, to, value, now).value;
            && r.Balance(from) == s.balanceFrom
            && r.Balance(to) == s.balanceTo
            && (forall x :: x != from && x != to && x != L.roles.feeAddress ==> r.Balance(x) == L.Balance(x))
            && (L.roles.feeAddress != from && L.roles.feeAddress != to ==>
                  r.Balance(L.roles.feeAddress) ==
                    L.Balance(L.roles.feeAddress) + s.feesFrom + s.feesTo + s.transferFee)
  {
    TransferBalances(L, from, to, value, now, oF, oT, fee, settledFrom, settledTo, L2);
    var r := Transfer(L, from, to, value, now).value;
    AgreesWithSimulation(L, r, from, to, value, now, oF, oT, fee, settledFrom, settledTo);
  }

  /** `simulateTransfer` predicts the real transfer exactly: the transfer
      succeeds exactly when the simulation does, and then the sender, the
      recipient and the fee address end with the simulated balances while
      every other balance stays put. */
  lemma TransferMatchesSimulate(L: Ledger, from: Address, to: Address, value: nat, now: nat)
    requires WellFormed(L)
    requires to != ZERO_ADDRESS && to != L.roles.contractAddress && RouteAllowed(L.roles, from, to)
    ensures Transfer(L, from, to, value, now).Ok? <==> Simulate(L, from, to, value, now).Ok?
    ensures Transfer(L, from, to, value, now).Ok? ==>
              var r := Transfer(L, from, to, value, now).value;
              var s := Simulate(L, from, to, value, now).value;
              && r.Balance(from) == s.balanceFrom
              && r.Balance(to) == s.balanceTo
              && (forall x :: x != from && x != to && x != L.roles.feeAddress ==> r.Balance(x) == L.Balance(x))
              && (L.roles.feeAddress != from && L.roles.feeAddress != to ==>
                    r.Balance(L.roles.feeAddress) ==
                      L.Balance(L.roles.feeAddress) + s.feesFrom + s.feesTo + s.transferFee)
  {
    var oF := CalcOwedFees(L.Get(from), now);
    var oT := if to == from then 0 else CalcOwedFees(L.Get(to), now);
    SettledBalancesOwed(L, from, to, now, oF, oT);
    var L2 := if to == from then SettleSender(L, from, now) else SettleRecipient(SettleSender(L, from, now), to, now);
    var F := L.roles.feeAddress;
    var fee := if to == from then 0 else CalcTransferFee(L, from, value);
    var settledFrom := L.Balance(from) - oF + (if from == F then oF + oT else 0);
    var settledTo := L.Balance(to) - oT + (if to == F then oF + oT else 0);
    TransferSucceedsIff(L, from, to, value, now, fee, settledFrom, L2);
    if settledFrom >= value + fee {
      TransferMatchesSimulateBalances(L, from, to, value, now, oF, oT, fee, settledFrom, settledTo, L2);
    } else {
      SimulateSettled(L, from, to, value, now, oF, oT, fee, settledFrom, settledTo);
    }
  }
}
