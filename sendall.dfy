/** `calcSendAllBalance` names an amount the account can really send. */
module SendAllProofs {
  import opened Fees
  import opened Ledger
  import opened TransferProofs

  /** What send-all leaves of a settled balance once its fee is paid. */
  lemma SendAllLeaves(settled: nat, rate: nat, amount: nat, fee: nat)
    requires rate <= MAX_TRANSFER_FEE_BASIS_POINTS
    requires amount == SendAll(settled, rate) && fee == TransferFee(amount, rate)
    ensures amount + fee <= settled
    ensures settled - amount - fee <= 1
    ensures TransferFee(amount + 1, rate) == fee ==> settled - amount - fee == 0
  {
    SendAllResidual(settled, rate);
  }

  /** A sender other than the fee address, sending to someone else, keeps
      its settled balance less the value and the fee. */
  lemma SenderBalanceAfterTransfer(L: Ledger, a: Address, to: Address, value: nat, now: nat,
                                   oF: nat, fee: nat, settled: nat)
    requires WellFormed(L)
    requires a != L.roles.feeAddress
    requires to != ZERO_ADDRESS && to != L.roles.contractAddress && to != a && RouteAllowed(L.roles, a, to)
    requires oF == CalcOwedFees(L.Get(a), now)
    requires fee == CalcTransferFee(L, a, value)
    requires settled == L.Balance(a) - oF
    requires value + fee <= settled
    ensures Transfer(L, a, to, value, now).Ok?
    ensures Transfer(L, a, to, value, now).value.Balance(a) == settled - value - fee
  {
    var F := L.roles.feeAddress;
    var oT := CalcOwedFees(L.Get(to), now);
    var settledTo := L.Balance(to) - oT + (if to == F then oF + oT else 0);
    SimulateSettled(L, a, to, value, now, oF, oT, fee, settled, settledTo);
    TransferMatchesSimulate(L, a, to, value, now);
  }

  /** The send-all amount of `a` can be transferred, and afterwards the
      sender holds at most one unit, none unless one more unit would also
      have raised the transfer fee. */
  lemma SendAllCanBeSent(L: Ledger, a: Address, to: Address, now: nat, amount: nat)
    requires WellFormed(L)
    requires a != L.roles.feeAddress
    requires to != ZERO_ADDRESS && to != L.roles.contractAddress && to != a && RouteAllowed(L.roles, a, to)
    requires CalcSendAllBalance(L, a, now) == Ok(amount)
    ensures Transfer(L, a, to, amount, now).Ok?
    ensures Transfer(L, a, to, amount, now).value.Balance(a) <= 1
    ensures var rate := FeeRate(L, a);
            TransferFee(amount + 1, rate) == TransferFee(amount, rate) ==>
              Transfer(L, a, to, amount, now).value.Balance(a) == 0
  {
    var oF := CalcOwedFees(L.Get(a), now);
    var rate := FeeRate(L, a);
    var settled := L.Balance(a) - oF;
    var fee := TransferFee(amount, rate);
    SendAllLeaves(settled, rate, amount, fee);
    SenderBalanceAfterTransfer(L, a, to, amount, now, oF, fee, settled);
  }
}
