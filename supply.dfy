/** The supply controller: the balances always add up to the total supply,
    `addBackedTokens` drains the unbacked treasury before minting and is
    bounded by the locked gold and the supply limit, and the routing table
    keeps the treasuries apart from outside addresses. */
module SupplyProofs {
  import opened Fees
  import opened Ledger
  import opened TransferProofs
  import opened Conservation

  /** No single balance exceeds the sum of all balances. */
  lemma {:induction false} BalanceAtMostTotal(m: Accounts, a: Address)
    ensures Lookup(m, a).balance <= Total(m)
  {
    if a in m {
      TotalRemove(m, a);
    }
  }

  /** In a valid ledger the circulation is exactly the supply outside the
      unbacked treasury. */
  lemma CirculationExact(L: Ledger)
    requires Valid(L)
    ensures Circulation(L) + L.Balance(L.roles.unbackedTreasury) == L.totalSupply
  {
    BalanceAtMostTotal(L.accounts, L.roles.unbackedTreasury);
  }

  /** `addBackedTokens` succeeds exactly for the owner, when the new
      circulation stays within the locked gold and any minting stays within
      the supply limit. It moves what the unbacked treasury holds, up to
      `value`, to the backed treasury and mints only the remainder there;
      the circulation grows by `value` and the ledger stays valid. */
  lemma AddBackedTokensEffect(L: Ledger, caller: Address, value: nat, lockedGold: nat)
    requires Valid(L)
    ensures var u := L.Balance(L.roles.unbackedTreasury);
            AddBackedTokens(L, caller, value, lockedGold).Ok? <==>
              && caller == L.roles.owner
              && Circulation(L) + value <= lockedGold
              && L.totalSupply + Sub0(value, u) <= SUPPLY_LIMIT
    ensures AddBackedTokens(L, caller, value, lockedGold).Ok? ==>
              var r := AddBackedTokens(L, caller, value, lockedGold).value;
              var unbacked := L.roles.unbackedTreasury;
              var backed := L.roles.backedTreasury;
              && Valid(r)
              && r.totalSupply == L.totalSupply + Sub0(value, L.Balance(unbacked))
              && r.Balance(unbacked) == Sub0(L.Balance(unbacked), value)
              && r.Balance(backed) == L.Balance(backed) + value
              && (forall x :: x != unbacked && x != backed ==> r.Balance(x) == L.Balance(x))
              && Circulation(r) == Circulation(L) + value
              && Circulation(r) <= lockedGold
  {
    var unbacked := L.roles.unbackedTreasury;
    var backed := L.roles.backedTreasury;
    CirculationExact(L);
    var available := L.Balance(unbacked);
    if value <= available {
      MoveConserves(L, unbacked, backed, value);
    } else {
      MoveConserves(L, unbacked, backed, available);
      MintConserves(Move(L, unbacked, backed, available), backed, value - available);
    }
    var r := AddBackedTokens(L, caller, value, lockedGold);
    if r.Ok? {
      CirculationExact(r.value);
    }
  }

  /** Both sides settling conserves the supply. */
  lemma SettlementConserves(L: Ledger, from: Address, to: Address, now: nat)
    ensures Conserves(L, if to == from then SettleSender(L, from, now)
                         else SettleRecipient(SettleSender(L, from, now), to, now))
  {
    SettleSenderConserves(L, from, now);
    if to != from {
      SettleRecipientConserves(SettleSender(L, from, now), to, now);
    }
  }

  /** Moving the value and the transfer fee, then setting the recipient's
      clock, conserves the supply. */
  lemma MovesConserve(L2: Ledger, from: Address, to: Address, value: nat, fee: nat, now: nat)
    requires value + fee <= L2.Balance(from)
    ensures Conserves(L2, ReceiveClock(Move(Move(L2, from, to, value), from, L2.roles.feeAddress, fee), to, now))
  {
    var L3 := Move(L2, from, to, value);
    MoveConserves(L2, from, to, value);
    MoveConserves(L3, from, L2.roles.feeAddress, fee);
    ReceiveClockConserves(Move(L3, from, L2.roles.feeAddress, fee), to, now);
  }

  /** Transfers conserve the supply: every fee and every value only moves
      between balances. */
  lemma TransferConserves(L: Ledger, from: Address, to: Address, value: nat, now: nat)
    requires Valid(L)
    requires Transfer(L, from, to, value, now).Ok?
    ensures Valid(Transfer(L, from, to, value, now).value)
    ensures Transfer(L, from, to, value, now).value.totalSupply == L.totalSupply
  {
    TransferSettled(L, from, to, value, now);
    var L2 := if to == from then SettleSender(L, from, now) else SettleRecipient(SettleSender(L, from, now), to, now);
    var fee := if to == from then 0 else CalcTransferFee(L, from, value);
    SettlementConserves(L, from, to, now);
    MovesConserve(L2, from, to, value, fee, now);
  }

  /** A sender settling its own fees conserves the supply: the fee address
      receives what the account pays. */
  lemma PayOwnStorageFeeConserves(L: Ledger, a: Address, now: nat)
    requires Valid(L)
    ensures Valid(PayOwnStorageFee(L, a, now)) && PayOwnStorageFee(L, a, now).totalSupply == L.totalSupply
  {
    SettleSenderConserves(L, a, now);
  }

  /** An approval only touches the sender's record and keeps the ledger
      valid. */
  lemma ApproveConserves(L: Ledger, a: Address, spender: Address, now: nat)
    requires Valid(L)
    ensures Approve(L, a, spender, now).Ok? ==>
              Valid(Approve(L, a, spender, now).value) &&
              Approve(L, a, spender, now).value.totalSupply == L.totalSupply
  {
    TouchConserves(L, a, now);
  }

  /** Fees the enforcer collects reach the fee address. */
  lemma ForcePayFeesConserves(L: Ledger, caller: Address, a: Address, now: nat)
    requires Valid(L)
    ensures ForcePayFees(L, caller, a, now).Ok? ==>
              Valid(ForcePayFees(L, caller, a, now).value) &&
              ForcePayFees(L, caller, a, now).value.totalSupply == L.totalSupply
  {
    var acct := L.Get(a);
    if acct.isInactive {
      PayInactiveFeeConserves(L, a, now);
    } else if CanMarkInactive(acct, now) {
      SetInactiveConserves(L, a, now);
    } else {
      PayStorageFeeConserves(L, a, now);
    }
  }

  /** Marking an account inactive moves its fees to the fee address. */
  lemma SetAccountInactiveConserves(L: Ledger, caller: Address, a: Address, now: nat)
    requires Valid(L)
    ensures SetAccountInactive(L, caller, a, now).Ok? ==>
              Valid(SetAccountInactive(L, caller, a, now).value) &&
              SetAccountInactive(L, caller, a, now).value.totalSupply == L.totalSupply
  {
    if CanMarkInactive(L.Get(a), now) {
      SetInactiveConserves(L, a, now);
    }
  }

  /** The owner's settings keep the ledger valid and touch no balance. */
  lemma SettingsConserve(L: Ledger, caller: Address, days: nat, basisPoints: nat)
    requires Valid(L)
    ensures SetStorageFeeGracePeriodDays(L, caller, days).Ok? ==> Valid(SetStorageFeeGracePeriodDays(L, caller, days).value)
    ensures SetTransferFeeBasisPoints(L, caller, basisPoints).Ok? ==>
              Valid(SetTransferFeeBasisPoints(L, caller, basisPoints).value) &&
              SetTransferFeeBasisPoints(L, caller, basisPoints).value.transferFeeBasisPoints == basisPoints
    ensures SetTransferFeeBasisPoints(L, caller, basisPoints).Ok? <==>
              caller == L.roles.owner && basisPoints <= MAX_TRANSFER_FEE_BASIS_POINTS
  {
    var r := SetStorageFeeGracePeriodDays(L, caller, days);
    if r.Ok? {
      assert forall a :: r.value.Get(a) == L.Get(a);
    }
    var q := SetTransferFeeBasisPoints(L, caller, basisPoints);
    if q.Ok? {
      assert forall a :: q.value.Get(a) == L.Get(a);
    }
  }

  /** Moving tokens from the backed treasury or the redeem address into the
      unbacked treasury takes them out of circulation, fee-free. */
  lemma ReturnToUnbackedLowersCirculation(L: Ledger, from: Address, value: nat, now: nat)
    requires Valid(L)
    requires from == L.roles.backedTreasury || from == L.roles.redeemAddress
    requires value <= L.Balance(from)
    ensures Transfer(L, from, L.roles.unbackedTreasury, value, now).Ok?
    ensures Circulation(Transfer(L, from, L.roles.unbackedTreasury, value, now).value) == Circulation(L) - value
  {
    var u := L.roles.unbackedTreasury;
    assert AccountValid(L.Get(from)) && AccountValid(L.Get(u));
    assert CalcOwedFees(L.Get(from), now) == 0 && CalcOwedFees(L.Get(u), now) == 0;
    assert CalcTransferFee(L, from, value) == 0;
    TransferMatchesSimulate(L, from, u, value, now);
    SimulateSettled(L, from, u, value, now, 0, 0, 0, L.Balance(from), L.Balance(u));
    CirculationExact(L);
    TransferConserves(L, from, u, value, now);
    CirculationExact(Transfer(L, from, u, value, now).value);
  }

  /** The routing table: outside addresses and the fee address cannot pay
      into either treasury, the unbacked treasury and the redeem address
      cannot pay outside addresses, and the permitted treasury routes are
      open. */
  lemma RoutingTable(r: Roles, external: Address)
    requires RolesValid(r)
    requires external != r.unbackedTreasury && external != r.backedTreasury
    requires external != r.feeAddress && external != r.redeemAddress
    ensures !RouteAllowed(r, external, r.unbackedTreasury) && !RouteAllowed(r, external, r.backedTreasury)
    ensures r.feeAddress != r.backedTreasury && r.feeAddress != r.redeemAddress ==>
              !RouteAllowed(r, r.feeAddress, r.unbackedTreasury) && !RouteAllowed(r, r.feeAddress, r.backedTreasury)
    ensures !RouteAllowed(r, r.unbackedTreasury, external) && !RouteAllowed(r, r.redeemAddress, external)
    ensures RouteAllowed(r, r.backedTreasury, r.unbackedTreasury)
    ensures RouteAllowed(r, r.redeemAddress, r.unbackedTreasury)
    ensures RouteAllowed(r, r.redeemAddress, r.backedTreasury)
    ensures RouteAllowed(r, r.unbackedTreasury, r.backedTreasury)
  {
  }
}
