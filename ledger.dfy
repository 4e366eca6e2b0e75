/** The CACHE Gold account ledger as a pure state machine. A `Ledger` value
    holds every account record, the total supply and the global settings;
    each operation of the token is a function from a ledger to a new ledger
    or to an error, so that the imperative contract in module Token can be
    proved against it and its properties stated as lemmas. Time is the
    explicit parameter `now`, in seconds. */
module Ledger {
  import opened Fees

  type Address = nat

  const ZERO_ADDRESS: Address := 0

  /** The per-address record. A time stamp of 0 means "never set". */
  datatype Account = Account(
    balance: nat,
    /** When the storage fee was last paid or its clock last re-established. */
    storageFeeClock: nat,
    /** Grace days captured when the clock was first established. */
    storageFeeGraceDays: nat,
    /** Last operation the address itself authorised (send, approve). */
    lastActivity: nat,
    isInactive: bool,
    /** Balance frozen when the account was marked inactive, 0 while active. */
    inactiveSnapshot: nat,
    /** Inactivity fee already collected against the snapshot. */
    inactiveFeePaid: nat,
    isFeeExempt: bool)

  /** The record of an address the ledger has never touched. */
  const NO_ACCOUNT: Account := Account(0, 0, 0, 0, false, 0, 0, false)

  type Accounts = map<Address, Account>

  function Lookup(m: Accounts, a: Address): Account {
    if a in m then m[a] else NO_ACCOUNT
  }

  /** The privileged addresses of the contract. */
  datatype Roles = Roles(
    owner: Address,
    feeEnforcer: Address,
    unbackedTreasury: Address,
    backedTreasury: Address,
    feeAddress: Address,
    redeemAddress: Address,
    contractAddress: Address)

  /** No role is the zero address, the contract is neither treasury, and
      the unbacked treasury is none of the other treasury addresses. */
  predicate RolesValid(r: Roles) {
    && r.owner != ZERO_ADDRESS
    && r.feeEnforcer != ZERO_ADDRESS
    && r.unbackedTreasury != ZERO_ADDRESS
    && r.backedTreasury != ZERO_ADDRESS
    && r.feeAddress != ZERO_ADDRESS
    && r.redeemAddress != ZERO_ADDRESS
    && r.contractAddress != ZERO_ADDRESS
    && r.contractAddress != r.unbackedTreasury
    && r.contractAddress != r.backedTreasury
    && r.unbackedTreasury != r.backedTreasury
    && r.unbackedTreasury != r.feeAddress
    && r.unbackedTreasury != r.redeemAddress
  }

  datatype Ledger = Ledger(
    accounts: Accounts,
    totalSupply: nat,
    transferFeeBasisPoints: nat,
    /** Grace days handed to an address when it first receives funds. */
    storageFeeGracePeriodDays: nat,
    roles: Roles)
  {
    function Get(a: Address): Account {
      Lookup(accounts, a)
    }

    /** The stored balance, before any fee is deducted. */
    function Balance(a: Address): nat {
      Get(a).balance
    }
  }

  datatype Error =
    | ZeroAddress
    | ContractAddress
    | RouteNotAllowed
    | InsufficientBalance
    | NotOwner
    | NotFeeEnforcer
    | NoBalance
    | NothingOwed
    | StorageFeeNotDue
    | CannotMarkInactive
    | FeeAboveMaximum
    | ExceedsLockedGold
    | ExceedsSupplyLimit

  datatype Result<T> = Ok(value: T) | Err(error: Error)

  // ---------------------------------------------------------------------
  // Sum of balances
  // ---------------------------------------------------------------------

  ghost function Pick(m: Accounts): (a: Address)
    requires |m| > 0
    ensures a in m
  {
    var a :| a in m; a
  }

  /** The sum of all balances held in the ledger. */
  ghost function Total(m: Accounts): nat
    decreases |m|
  {
    if |m| == 0 then 0
    else
      var a := Pick(m);
      m[a].balance + Total(m - {a})
  }

  lemma {:induction false} TotalRemove(m: Accounts, a: Address)
    requires a in m
    ensures Total(m) == m[a].balance + Total(m - {a})
    decreases |m|
  {
    var p := Pick(m);
    if p != a {
      TotalRemove(m - {p}, a);
      TotalRemove(m - {a}, p);
      assert m - {p} - {a} == m - {a} - {p};
    }
  }

  /** Replacing one record changes the sum by the change of that balance. */
  lemma TotalUpdate(m: Accounts, a: Address, acct: Account)
    ensures Total(m[a := acct]) + Lookup(m, a).balance == Total(m) + acct.balance
  {
    TotalRemove(m[a := acct], a);
    assert m[a := acct] - {a} == m - {a};
    if a in m {
      TotalRemove(m, a);
    } else {
      assert m - {a} == m;
    }
  }

  // ---------------------------------------------------------------------
  // Day counts and fees owed by one record
  // ---------------------------------------------------------------------

  /** Days since the storage fee was paid; an inactive account and an
      address that never received funds report 0. */
  function DaysSincePaidStorageFee(acct: Account, now: nat): nat {
    if acct.isInactive || acct.storageFeeClock == 0 then 0
    else ElapsedDays(acct.storageFeeClock, now)
  }

  function DaysSinceActivity(acct: Account, now: nat): nat {
    if acct.lastActivity == 0 then 0 else ElapsedDays(acct.lastActivity, now)
  }

  /** Storage fee owed now: none on inactive or fee-exempt accounts, and none
      within the grace days captured by the account. */
  function CalcStorageFee(acct: Account, now: nat): (fee: nat)
    ensures fee <= acct.balance
    ensures acct.isInactive || acct.isFeeExempt ==> fee == 0
    ensures Sub0(DaysSincePaidStorageFee(acct, now), acct.storageFeeGraceDays) == 0 ==> fee == 0
  {
    if acct.isInactive || acct.isFeeExempt then 0
    else
      var days := Sub0(DaysSincePaidStorageFee(acct, now), acct.storageFeeGraceDays);
      StorageFee(acct.balance, ChargedStorageDays(days, DaysSinceActivity(acct, now)))
  }

  /** An account may be marked inactive once it has been idle for the
      threshold, unless it is exempt, already inactive, or would be left
      with nothing after paying its storage fee. */
  predicate CanMarkInactive(acct: Account, now: nat)
    ensures CanMarkInactive(acct, now) ==>
              acct.lastActivity != 0 && acct.lastActivity + INACTIVE_THRESHOLD_DAYS * DAY_SECONDS <= now
  {
    && acct.balance > 0
    && !acct.isInactive
    && !acct.isFeeExempt
    && DaysSinceActivity(acct, now) >= INACTIVE_THRESHOLD_DAYS
    && acct.balance - CalcStorageFee(acct, now) > 0
  }

  /** Inactivity fee owed now. An account that could be marked inactive
      owes it as if it had been marked now, on the balance left after its
      storage fee. */
  function CalcInactiveFee(acct: Account, now: nat): (fee: nat)
    ensures fee + CalcStorageFee(acct, now) <= acct.balance
    ensures !acct.isInactive && !CanMarkInactive(acct, now) ==> fee == 0
  {
    if acct.isInactive then
      InactiveFee(acct.balance, DaysSinceActivity(acct, now), acct.inactiveSnapshot, acct.inactiveFeePaid)
    else if CanMarkInactive(acct, now) then
      var snapshot := acct.balance - CalcStorageFee(acct, now);
      InactiveFee(snapshot, DaysSinceActivity(acct, now), snapshot, 0)
    else 0
  }

  /** All fees owed now. */
  function CalcOwedFees(acct: Account, now: nat): (fees: nat)
    ensures fees <= acct.balance
    ensures acct.isFeeExempt && !acct.isInactive ==> fees == 0
  {
    CalcStorageFee(acct, now) + CalcInactiveFee(acct, now)
  }

  /** Basis points charged when `a` sends: none for fee-exempt senders. */
  function FeeRate(L: Ledger, a: Address): nat {
    if L.Get(a).isFeeExempt then 0 else L.transferFeeBasisPoints
  }

  /** The transfer fee `a` pays on `value`: none for an exempt sender, and
      never more than the value while the rate is at most 100%. */
  function CalcTransferFee(L: Ledger, a: Address, value: nat): (fee: nat)
    ensures L.Get(a).isFeeExempt ==> fee == 0
    ensures L.transferFeeBasisPoints <= BASIS_POINTS ==> fee <= value
  {
    TransferFeeAtMostAmount(value, FeeRate(L, a));
    TransferFee(value, FeeRate(L, a))
  }

  /** Tokens outside the unbacked treasury. */
  function Circulation(L: Ledger): (c: nat)
    ensures c <= L.totalSupply
    ensures c + L.Balance(L.roles.unbackedTreasury) >= L.totalSupply
  {
    Sub0(L.totalSupply, L.Balance(L.roles.unbackedTreasury))
  }

  // ---------------------------------------------------------------------
  // Invariants
  // ---------------------------------------------------------------------

  /** An inactive account is never exempt and holds a positive snapshot;
      an active one carries no inactivity bookkeeping. */
  predicate AccountValid(acct: Account) {
    && (acct.isInactive ==> !acct.isFeeExempt && acct.inactiveSnapshot > 0)
    && (!acct.isInactive ==> acct.inactiveSnapshot == 0 && acct.inactiveFeePaid == 0)
  }

  predicate RolesExempt(L: Ledger) {
    && L.Get(L.roles.owner).isFeeExempt
    && L.Get(L.roles.unbackedTreasury).isFeeExempt
    && L.Get(L.roles.backedTreasury).isFeeExempt
    && L.Get(L.roles.feeAddress).isFeeExempt
    && L.Get(L.roles.redeemAddress).isFeeExempt
  }

  /** Everything the ledger keeps invariant except the supply sum. */
  ghost predicate WellFormed(L: Ledger) {
    && RolesValid(L.roles)
    && RolesExempt(L)
    && L.transferFeeBasisPoints <= MAX_TRANSFER_FEE_BASIS_POINTS
    && L.totalSupply <= SUPPLY_LIMIT
    && (forall a :: AccountValid(L.Get(a)))
  }

  /** The ledger invariant: the balances add up to the total supply. */
  ghost predicate Valid(L: Ledger) {
    WellFormed(L) && Total(L.accounts) == L.totalSupply
  }

  /** `r` differs from `L` at most in balances, and in the record of
      `except`. */
  ghost predicate SameRecordsExcept(L: Ledger, r: Ledger, except: Address) {
    forall x :: x != except ==> r.Get(x) == L.Get(x).(balance := r.Balance(x))
  }

  /** `r` differs from `L` at most in balances. */
  ghost predicate SameRecords(L: Ledger, r: Ledger) {
    forall x :: r.Get(x) == L.Get(x).(balance := r.Balance(x))
  }

  // ---------------------------------------------------------------------
  // Steps: each changes one record and credits the fee address
  // ---------------------------------------------------------------------

  /** Stores `updated` as the record of `a`. */
  function Store(L: Ledger, a: Address, updated: Account): (r: Ledger)
    ensures r == L.(accounts := r.accounts)
    ensures r.Get(a) == updated
    ensures forall x :: x != a ==> r.Get(x) == L.Get(x)
  {
    L.(accounts := L.accounts[a := updated])
  }

  function Credit(L: Ledger, a: Address, amount: nat): (r: Ledger)
    ensures r == L.(accounts := r.accounts)
    ensures r.Get(a) == L.Get(a).(balance := L.Balance(a) + amount)
    ensures forall x :: x != a ==> r.Get(x) == L.Get(x)
  {
    Store(L, a, L.Get(a).(balance := L.Balance(a) + amount))
  }

  function Debit(L: Ledger, a: Address, amount: nat): (r: Ledger)
    requires amount <= L.Balance(a)
    ensures r == L.(accounts := r.accounts)
    ensures r.Get(a) == L.Get(a).(balance := L.Balance(a) - amount)
    ensures forall x :: x != a ==> r.Get(x) == L.Get(x)
  {
    Store(L, a, L.Get(a).(balance := L.Balance(a) - amount))
  }

  /** Replaces the record of `a` by one holding the same balance. */
  function Replace(L: Ledger, a: Address, updated: Account): (r: Ledger)
    requires updated.balance == L.Balance(a)
    ensures r == L.(accounts := r.accounts)
    ensures r.Get(a) == updated
    ensures forall x :: x != a ==> r.Get(x) == L.Get(x)
  {
    Store(L, a, updated)
  }

  /** Replaces the record of `a` by `updated`, whose balance is lower by
      `fee`, and credits `fee` to the fee address. */
  function Collect(L: Ledger, a: Address, updated: Account, fee: nat): (r: Ledger)
    requires updated.balance + fee == L.Balance(a)
    ensures r == L.(accounts := r.accounts)
    ensures r.Get(a) == updated.(balance := r.Balance(a))
    ensures SameRecordsExcept(L, r, a)
    ensures forall x :: r.Balance(x) ==
              (if x == a then updated.balance else L.Balance(x)) + (if x == L.roles.feeAddress then fee else 0)
  {
    Credit(Store(L, a, updated), L.roles.feeAddress, fee)
  }

  /** Moves `amount` from one balance to another; nothing else changes. */
  function Move(L: Ledger, from: Address, to: Address, amount: nat): (r: Ledger)
    requires amount <= L.Balance(from)
    ensures r == L.(accounts := r.accounts)
    ensures SameRecords(L, r)
    ensures forall x :: r.Balance(x) ==
              L.Balance(x) - (if x == from then amount else 0) + (if x == to then amount else 0)
  {
    Credit(Debit(L, from, amount), to, amount)
  }

  /** Creates `amount` new tokens on the balance of `a`. */
  function Mint(L: Ledger, a: Address, amount: nat): (r: Ledger)
    ensures r == L.(accounts := r.accounts, totalSupply := L.totalSupply + amount)
    ensures SameRecords(L, r)
    ensures forall x :: r.Balance(x) == L.Balance(x) + (if x == a then amount else 0)
  {
    Credit(L, a, amount).(totalSupply := L.totalSupply + amount)
  }

  /** Pays the storage fee owed by `a`, if any: the balance drops by the fee,
      the clock restarts now and the grace days are used up. A zero fee
      leaves the clock where it was. */
  function PayStorageFee(L: Ledger, a: Address, now: nat): (r: Ledger)
    ensures r == L.(accounts := r.accounts)
  {
    var acct := L.Get(a);
    var fee := CalcStorageFee(acct, now);
    if fee == 0 then L
    else Collect(L, a, acct.(balance := acct.balance - fee, storageFeeClock := now, storageFeeGraceDays := 0), fee)
  }

  /** Marks `a` inactive: its storage fee is collected, the rest of its
      balance becomes the snapshot, and the inactivity fee accrued so far is
      collected against that snapshot. */
  function SetInactive(L: Ledger, a: Address, now: nat): (r: Ledger)
    requires CanMarkInactive(L.Get(a), now)
    ensures r == L.(accounts := r.accounts)
  {
    var acct := L.Get(a);
    var storageFee := CalcStorageFee(acct, now);
    var snapshot := acct.balance - storageFee;
    var inactiveFee := InactiveFee(snapshot, DaysSinceActivity(acct, now), snapshot, 0);
    Collect(L, a, acct.(balance := snapshot - inactiveFee, isInactive := true,
                        inactiveSnapshot := snapshot, inactiveFeePaid := inactiveFee),
            storageFee + inactiveFee)
  }

  /** Collects the inactivity fee owed by an inactive account, if any. */
  function PayInactiveFee(L: Ledger, a: Address, now: nat): (r: Ledger)
    requires L.Get(a).isInactive
    ensures r == L.(accounts := r.accounts)
  {
    var acct := L.Get(a);
    var fee := CalcInactiveFee(acct, now);
    if fee == 0 then L
    else Collect(L, a, acct.(balance := acct.balance - fee, inactiveFeePaid := acct.inactiveFeePaid + fee), fee)
  }

  /** Clears the inactive state and re-establishes the storage clock, which
      captures the current grace period. */
  function Reactivate(L: Ledger, a: Address, now: nat): (r: Ledger)
    ensures r == L.(accounts := r.accounts)
    ensures forall x :: r.Balance(x) == L.Balance(x)
    ensures forall x :: x != a ==> r.Get(x) == L.Get(x)
  {
    var acct := L.Get(a);
    Replace(L, a, acct.(isInactive := false, inactiveSnapshot := 0, inactiveFeePaid := 0,
                        storageFeeClock := now, storageFeeGraceDays := L.storageFeeGracePeriodDays))
  }

  /** Marks `a` inactive first if it may be. */
  function MarkIfIdle(L: Ledger, a: Address, now: nat): (r: Ledger)
    ensures r == L.(accounts := r.accounts)
  {
    if CanMarkInactive(L.Get(a), now) then SetInactive(L, a, now) else L
  }

  /** The activity signal of an operation `a` authorises: an idle account is
      marked inactive, an inactive one pays its inactivity fee and is
      reactivated, and the activity time becomes `now`. */
  function Touch(L: Ledger, a: Address, now: nat): (r: Ledger)
    ensures r == L.(accounts := r.accounts)
  {
    var L1 := MarkIfIdle(L, a, now);
    var L2 := if L1.Get(a).isInactive then Reactivate(PayInactiveFee(L1, a, now), a, now) else L1;
    Replace(L2, a, L2.Get(a).(lastActivity := now))
  }

  /** Settles the fee `a` owes: the inactivity fee if inactive, else the
      storage fee. */
  function Settle(L: Ledger, a: Address, now: nat): (r: Ledger)
    ensures r == L.(accounts := r.accounts)
  {
    if L.Get(a).isInactive then PayInactiveFee(L, a, now) else PayStorageFee(L, a, now)
  }

  /** Settlement of the sender of a transfer. */
  function SettleSender(L: Ledger, a: Address, now: nat): (r: Ledger)
    ensures r == L.(accounts := r.accounts)
  {
    PayStorageFee(Touch(L, a, now), a, now)
  }

  /** Settlement of the recipient of a transfer: receiving is no activity,
      so an idle recipient is marked inactive instead. */
  function SettleRecipient(L: Ledger, a: Address, now: nat): (r: Ledger)
    ensures r == L.(accounts := r.accounts)
  {
    Settle(MarkIfIdle(L, a, now), a, now)
  }

  /** The storage clock on receipt. A first credit starts the clock with the
      current grace period (and counts as the first activity). Otherwise, if
      whole chargeable days have passed without a fee being realised (the
      balance is too small for the fee to round above 0), the clock restarts
      so that no unpaid fee lingers. */
  function ReceiveClock(L: Ledger, a: Address, now: nat): (r: Ledger)
    ensures r == L.(accounts := r.accounts)
    ensures forall x :: r.Balance(x) == L.Balance(x)
    ensures forall x :: x != a ==> r.Get(x) == L.Get(x)
  {
    var acct := L.Get(a);
    if acct.storageFeeClock == 0 then
      Replace(L, a, acct.(storageFeeClock := now, storageFeeGraceDays := L.storageFeeGracePeriodDays,
                          lastActivity := if acct.lastActivity == 0 then now else acct.lastActivity))
    else if !acct.isInactive && Sub0(ElapsedDays(acct.storageFeeClock, now), acct.storageFeeGraceDays) > 0 then
      Replace(L, a, acct.(storageFeeClock := now, storageFeeGraceDays := 0))
    else L
  }

  // ---------------------------------------------------------------------
  // Operations
  // ---------------------------------------------------------------------

  /** The routing table of the treasury addresses. */
  predicate RouteAllowed(r: Roles, from: Address, to: Address)
    ensures (from != r.unbackedTreasury && from != r.redeemAddress &&
             to != r.unbackedTreasury && to != r.backedTreasury) ==> RouteAllowed(r, from, to)
  {
    && (to == r.unbackedTreasury ==> from == r.backedTreasury || from == r.redeemAddress)
    && (from == r.unbackedTreasury ==> to == r.backedTreasury)
    && (from == r.redeemAddress ==> to == r.backedTreasury || to == r.unbackedTreasury)
    && (to == r.backedTreasury ==> from == r.unbackedTreasury || from == r.redeemAddress)
  }

  /** `sender` sends `value` to `to`: both accounts settle their fees, then
      the value moves and the sender pays the transfer fee (none when
      sending to itself). */
  function Transfer(L: Ledger, sender: Address, to: Address, value: nat, now: nat): (r: Result<Ledger>)
    ensures to == ZERO_ADDRESS ==> r == Err(ZeroAddress)
    ensures r.Ok? ==> to != L.roles.contractAddress && RouteAllowed(L.roles, sender, to)
    ensures r.Ok? ==> r.value == L.(accounts := r.value.accounts)
    ensures r.Err? && to != ZERO_ADDRESS && to != L.roles.contractAddress && RouteAllowed(L.roles, sender, to) ==>
              r.error == InsufficientBalance
  {
    if to == ZERO_ADDRESS then Err(ZeroAddress)
    else if to == L.roles.contractAddress then Err(ContractAddress)
    else if !RouteAllowed(L.roles, sender, to) then Err(RouteNotAllowed)
    else
      var L1 := SettleSender(L, sender, now);
      var L2 := if to == sender then L1 else SettleRecipient(L1, to, now);
      var fee := if to == sender then 0 else CalcTransferFee(L, sender, value);
      if L2.Balance(sender) < value + fee then Err(InsufficientBalance)
      else
        var L3 := Move(L2, sender, to, value);
        var L4 := Move(L3, sender, L.roles.feeAddress, fee);
        Ok(ReceiveClock(L4, to, now))
  }

  /** `approve` keeps only its effect as an activity signal. */
  function Approve(L: Ledger, sender: Address, spender: Address, now: nat): (r: Result<Ledger>)
    ensures r.Err? <==> spender == ZERO_ADDRESS
    ensures r.Ok? ==> r.value == L.(accounts := r.value.accounts) && r.value.Get(sender).lastActivity == now
  {
    if spender == ZERO_ADDRESS then Err(ZeroAddress) else Ok(Touch(L, sender, now))
  }

  /** The sender settles its own fees. */
  function PayOwnStorageFee(L: Ledger, sender: Address, now: nat): (r: Ledger)
    ensures r == L.(accounts := r.accounts)
  {
    SettleSender(L, sender, now)
  }

  /** The fee enforcer collects what `a` owes: the inactivity fee of an
      inactive account, the inactivation of an idle one, or else a storage
      fee at least a year old. Fails when nothing would be collected. */
  function ForcePayFees(L: Ledger, caller: Address, a: Address, now: nat): (r: Result<Ledger>)
    ensures caller != L.roles.feeEnforcer ==> r == Err(NotFeeEnforcer)
    ensures r.Ok? ==> a != ZERO_ADDRESS && L.Balance(a) > 0
    ensures r.Ok? ==> r.value == L.(accounts := r.value.accounts)
    ensures r.Ok? && !L.Get(a).isInactive && CanMarkInactive(L.Get(a), now) ==> r.value.Get(a).isInactive
  {
    var acct := L.Get(a);
    if caller != L.roles.feeEnforcer then Err(NotFeeEnforcer)
    else if a == ZERO_ADDRESS then Err(ZeroAddress)
    else if acct.balance == 0 then Err(NoBalance)
    else if acct.isInactive then
      if CalcInactiveFee(acct, now) == 0 then Err(NothingOwed) else Ok(PayInactiveFee(L, a, now))
    else if CanMarkInactive(acct, now) then Ok(SetInactive(L, a, now))
    else if DaysSincePaidStorageFee(acct, now) < YEAR_DAYS then Err(StorageFeeNotDue)
    else if CalcStorageFee(acct, now) == 0 then Err(NothingOwed)
    else Ok(PayStorageFee(L, a, now))
  }

  /** The fee enforcer marks an idle account inactive. */
  function SetAccountInactive(L: Ledger, caller: Address, a: Address, now: nat): (r: Result<Ledger>)
    ensures r.Ok? ==> caller == L.roles.feeEnforcer && L.Balance(a) > 0 && !L.Get(a).isFeeExempt
    ensures r.Ok? ==> r.value == L.(accounts := r.value.accounts)
    ensures r.Ok? ==> !L.Get(a).isInactive && r.value.Get(a).isInactive &&
                      r.value.Get(a).lastActivity == L.Get(a).lastActivity
  {
    if caller != L.roles.feeEnforcer then Err(NotFeeEnforcer)
    else if !CanMarkInactive(L.Get(a), now) then Err(CannotMarkInactive)
    else Ok(SetInactive(L, a, now))
  }

  /** The owner adds `value` backed tokens: first drained from the unbacked
      treasury into the backed treasury, the remainder minted there. The
      circulation afterwards may not exceed the gold the oracle reports as
      locked, nor the supply the hard limit. */
  function AddBackedTokens(L: Ledger, caller: Address, value: nat, lockedGold: nat): (r: Result<Ledger>)
    ensures r.Ok? ==> caller == L.roles.owner && Circulation(L) + value <= lockedGold
    ensures r.Ok? ==> r.value.totalSupply == L.totalSupply + Sub0(value, L.Balance(L.roles.unbackedTreasury))
    ensures r.Ok? ==> r.value.roles == L.roles && r.value.transferFeeBasisPoints == L.transferFeeBasisPoints &&
                      r.value.storageFeeGracePeriodDays == L.storageFeeGracePeriodDays
  {
    var unbacked := L.roles.unbackedTreasury;
    var backed := L.roles.backedTreasury;
    var available := L.Balance(unbacked);
    if caller != L.roles.owner then Err(NotOwner)
    else if Circulation(L) + value > lockedGold then Err(ExceedsLockedGold)
    else if value <= available then Ok(Move(L, unbacked, backed, value))
    else if L.totalSupply + (value - available) > SUPPLY_LIMIT then Err(ExceedsSupplyLimit)
    else Ok(Mint(Move(L, unbacked, backed, available), backed, value - available))
  }

  function SetStorageFeeGracePeriodDays(L: Ledger, caller: Address, days: nat): (r: Result<Ledger>)
    ensures r.Ok? <==> caller == L.roles.owner
    ensures r.Ok? ==> r.value == L.(storageFeeGracePeriodDays := days)
  {
    if caller != L.roles.owner then Err(NotOwner)
    else Ok(L.(storageFeeGracePeriodDays := days))
  }

  function SetTransferFeeBasisPoints(L: Ledger, caller: Address, basisPoints: nat): (r: Result<Ledger>)
    ensures r.Ok? <==> caller == L.roles.owner && basisPoints <= MAX_TRANSFER_FEE_BASIS_POINTS
    ensures r.Ok? ==> r.value == L.(transferFeeBasisPoints := basisPoints)
  {
    if caller != L.roles.owner then Err(NotOwner)
    else if basisPoints > MAX_TRANSFER_FEE_BASIS_POINTS then Err(FeeAboveMaximum)
    else Ok(L.(transferFeeBasisPoints := basisPoints))
  }

  // ---------------------------------------------------------------------
  // Read-only calculators
  // ---------------------------------------------------------------------

  /** The projection `simulateTransfer` returns. */
  datatype Simulation = Simulation(
    feesFrom: nat,
    feesTo: nat,
    transferFee: nat,
    balanceFrom: nat,
    balanceTo: nat)

  /** Projects a transfer from the fees owed now, without running it: both
      sides pay what they owe (the recipient nothing extra when it is the
      sender), every fee lands on the fee address, and the transfer fails if
      the settled sender cannot cover the value and the transfer fee. */
  function Simulate(L: Ledger, from: Address, to: Address, value: nat, now: nat): (r: Result<Simulation>)
    ensures r.Err? ==> r.error == InsufficientBalance
    ensures r.Ok? && to == from ==>
              r.value.feesTo == 0 && r.value.transferFee == 0 && r.value.balanceFrom == r.value.balanceTo
    ensures r.Ok? && to != from && from != L.roles.feeAddress ==>
              r.value.balanceFrom + value + r.value.transferFee + r.value.feesFrom == L.Balance(from)
    ensures r.Ok? && to != from && to != L.roles.feeAddress ==>
              r.value.balanceTo + r.value.feesTo == L.Balance(to) + value
  {
    var feeAddress := L.roles.feeAddress;
    var feesFrom := CalcOwedFees(L.Get(from), now);
    var feesTo := if to == from then 0 else CalcOwedFees(L.Get(to), now);
    var transferFee := if to == from then 0 else CalcTransferFee(L, from, value);
    var collected := feesFrom + feesTo;
    var settledFrom := L.Balance(from) - feesFrom + (if from == feeAddress then collected else 0);
    var settledTo := L.Balance(to) - feesTo + (if to == feeAddress then collected else 0);
    if settledFrom < value + transferFee then Err(InsufficientBalance)
    else if to == from then Ok(Simulation(feesFrom, 0, 0, settledFrom, settledFrom))
    else
      Ok(Simulation(feesFrom, feesTo, transferFee,
                    settledFrom - value - transferFee + (if from == feeAddress then transferFee else 0),
                    settledTo + value + (if to == feeAddress then transferFee else 0)))
  }

  /** The largest amount `a` can send right now: its balance after the fees
      it owes, less the transfer fee on the amount itself. */
  function CalcSendAllBalance(L: Ledger, a: Address, now: nat): (r: Result<nat>)
    ensures r.Err? <==> a == ZERO_ADDRESS
    ensures r.Ok? ==> r.value + CalcTransferFee(L, a, r.value) + CalcOwedFees(L.Get(a), now) <= L.Balance(a)
  {
    if a == ZERO_ADDRESS then Err(ZeroAddress)
    else Ok(SendAll(L.Balance(a) - CalcOwedFees(L.Get(a), now), FeeRate(L, a)))
  }

  /** The ledger right after deployment: nothing minted, the default
      transfer fee, no grace period, and the owner and the four treasury
      addresses fee-exempt. */
  function Initial(roles: Roles): (r: Ledger)
    requires RolesValid(roles)
    ensures r.totalSupply == 0
  {
    var exempt := NO_ACCOUNT.(isFeeExempt := true);
    var L0 := Ledger(map[], 0, DEFAULT_TRANSFER_FEE_BASIS_POINTS, 0, roles);
    var L1 := Store(L0, roles.owner, exempt);
    var L2 := Store(L1, roles.unbackedTreasury, exempt);
    var L3 := Store(L2, roles.backedTreasury, exempt);
    var L4 := Store(L3, roles.feeAddress, exempt);
    Store(L4, roles.redeemAddress, exempt)
  }
}
