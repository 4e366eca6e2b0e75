/** The CACHE Gold token as a stateful object: a map of account records and
    the supply counters, changed in place step by step. Every operation is
    proved to leave the object in the state the functional model of module
    `Ledger` prescribes, and to keep the ledger invariant. */
module Token {
  import opened Fees
  import Model = Ledger
  import TransferProofs
  import SupplyProofs
  import Conservation

  /** What an operation reports: success, or the reason it reverted. A
      reverted operation leaves the token as it was. */
  datatype Status = Success | Failure(error: Model.Error)

  /** The sum of the balances of `addrs`, as the test suite totals them. */
  function SumOver(m: Model.Accounts, addrs: seq<Model.Address>): nat {
    if |addrs| == 0 then 0 else SumOver(m, addrs[..|addrs| - 1]) + Model.Lookup(m, addrs[|addrs| - 1]).balance
  }

  /** An address outside `addrs` does not contribute to their sum. */
  lemma {:induction false} SumOverWithout(m: Model.Accounts, addrs: seq<Model.Address>, a: Model.Address)
    requires a !in addrs
    ensures SumOver(m - {a}, addrs) == SumOver(m, addrs)
  {
    if |addrs| > 0 {
      SumOverWithout(m, addrs[..|addrs| - 1], a);
    }
  }

  /** The addresses of `addrs` are pairwise distinct. */
  predicate Distinct(addrs: seq<Model.Address>) {
    forall i, j :: 0 <= i < j < |addrs| ==> addrs[i] != addrs[j]
  }

  /** Dropping the last of distinct addresses leaves distinct addresses,
      none of them the one dropped. */
  lemma DistinctSplit(addrs: seq<Model.Address>)
    requires |addrs| > 0 && Distinct(addrs)
    ensures Distinct(addrs[..|addrs| - 1])
    ensures addrs[|addrs| - 1] !in addrs[..|addrs| - 1]
  {
    var prefix := addrs[..|addrs| - 1];
    forall i | 0 <= i < |prefix| ensures prefix[i] != addrs[|addrs| - 1] {
      assert prefix[i] == addrs[i];
    }
  }

  /** A list covering `m` without its last address covers `m` without it. */
  lemma PrefixCovers(m: Model.Accounts, addrs: seq<Model.Address>, rest: Model.Accounts)
    requires |addrs| > 0
    requires forall a :: a in m ==> a in addrs
    requires rest == m - {addrs[|addrs| - 1]}
    ensures forall x :: x in rest ==> x in addrs[..|addrs| - 1]
  {
    var last := addrs[|addrs| - 1];
    assert addrs == addrs[..|addrs| - 1] + [last];
    forall x | x in rest ensures x in addrs[..|addrs| - 1] {
      assert x in addrs[..|addrs| - 1] + [last];
    }
  }

  /** The sum over `m` less one key, plus that key's balance. */
  lemma TotalSplit(m: Model.Accounts, a: Model.Address)
    ensures Model.Total(m) == Model.Total(m - {a}) + Model.Lookup(m, a).balance
  {
    if a in m {
      Model.TotalRemove(m, a);
    } else {
      assert m - {a} == m;
    }
  }

  /** Summing the balances of a list of distinct addresses that covers every
      record gives the sum of all balances. */
  lemma {:induction false} SumOverCoversTotal(m: Model.Accounts, addrs: seq<Model.Address>)
    requires Distinct(addrs)
    requires forall a :: a in m ==> a in addrs
    ensures SumOver(m, addrs) == Model.Total(m)
    decreases |addrs|
  {
    if |addrs| == 0 {
      NothingCovered(m);
    } else {
      var a := addrs[|addrs| - 1];
      var prefix := addrs[..|addrs| - 1];
      DistinctSplit(addrs);
      PrefixCovers(m, addrs, m - {a});
      SumOverCoversTotal(m - {a}, prefix);
      SumOverStep(m, addrs);
    }
  }

  /** Records covered by no address sum to nothing. */
  lemma NothingCovered(m: Model.Accounts)
    requires forall a :: a in m ==> a in []
    ensures Model.Total(m) == 0
  {
    assert m == map[];
  }

  /** The sum over a list is the sum over its prefix, with its last address
      removed from the records, plus the last address's balance. */
  lemma SumOverStep(m: Model.Accounts, addrs: seq<Model.Address>)
    requires |addrs| > 0
    requires addrs[|addrs| - 1] !in addrs[..|addrs| - 1]
    requires SumOver(m - {addrs[|addrs| - 1]}, addrs[..|addrs| - 1]) == Model.Total(m - {addrs[|addrs| - 1]})
    ensures SumOver(m, addrs) == Model.Total(m)
  {
    var a := addrs[|addrs| - 1];
    SumOverWithout(m, addrs[..|addrs| - 1], a);
    TotalSplit(m, a);
  }

  class CacheGold {
    var accounts: Model.Accounts
    var totalSupply: nat
    var transferFeeBasisPoints: nat
    var storageFeeGracePeriodDays: nat
    const roles: Model.Roles

    /** The state of the token as a value of the functional model. */
    function Value(): Model.Ledger
      reads this
    {
      Model.Ledger(accounts, totalSupply, transferFeeBasisPoints, storageFeeGracePeriodDays, roles)
    }

    ghost predicate Valid()
      reads this
    {
      Model.Valid(Value())
    }

    /** Deploys the token: nothing minted, the default transfer fee, and
        the owner and the treasury addresses fee-exempt. */
    constructor (roles: Model.Roles)
      requires Model.RolesValid(roles)
      ensures Value() == Model.Initial(roles)
      ensures Valid() && totalSupply == 0
    {
      var exempt := Model.NO_ACCOUNT.(isFeeExempt := true);
      this.roles := roles;
      var m: Model.Accounts := map[];
      m := m[roles.owner := exempt];
      m := m[roles.unbackedTreasury := exempt];
      m := m[roles.backedTreasury := exempt];
      m := m[roles.feeAddress := exempt];
      m := m[roles.redeemAddress := exempt];
      accounts := m;
      totalSupply := 0;
      transferFeeBasisPoints := DEFAULT_TRANSFER_FEE_BASIS_POINTS;
      storageFeeGracePeriodDays := 0;
      Conservation.InitialValid(roles);
    }

    // -------------------------------------------------------------------
    // Steps
    // -------------------------------------------------------------------

    method Store(a: Model.Address, updated: Model.Account)
      modifies this
      ensures Value() == Model.Store(old(Value()), a, updated)
    {
      accounts := accounts[a := updated];
    }

    method Credit(a: Model.Address, amount: nat)
      modifies this
      ensures Value() == Model.Credit(old(Value()), a, amount)
    {
      var acct := Value().Get(a);
      Store(a, acct.(balance := acct.balance + amount));
    }

    method Debit(a: Model.Address, amount: nat)
      requires amount <= Value().Balance(a)
      modifies this
      ensures Value() == Model.Debit(old(Value()), a, amount)
    {
      var acct := Value().Get(a);
      Store(a, acct.(balance := acct.balance - amount));
    }

    method Collect(a: Model.Address, updated: Model.Account, fee: nat)
      requires updated.balance + fee == Value().Balance(a)
      modifies this
      ensures Value() == Model.Collect(old(Value()), a, updated, fee)
    {
      Store(a, updated);
      Credit(roles.feeAddress, fee);
    }

    method Move(from: Model.Address, to: Model.Address, amount: nat)
      requires amount <= Value().Balance(from)
      modifies this
      ensures Value() == Model.Move(old(Value()), from, to, amount)
    {
      Debit(from, amount);
      Credit(to, amount);
    }

    method PayStorageFeeOf(a: Model.Address, now: nat)
      modifies this
      ensures Value() == Model.PayStorageFee(old(Value()), a, now)
    {
      var acct := Value().Get(a);
      var fee := Model.CalcStorageFee(acct, now);
      if fee != 0 {
        Collect(a, acct.(balance := acct.balance - fee, storageFeeClock := now, storageFeeGraceDays := 0), fee);
      }
    }

    method SetInactive(a: Model.Address, now: nat)
      requires Model.CanMarkInactive(Value().Get(a), now)
      modifies this
      ensures Value() == Model.SetInactive(old(Value()), a, now)
    {
      var acct := Value().Get(a);
      var storageFee := Model.CalcStorageFee(acct, now);
      var snapshot := acct.balance - storageFee;
      var inactiveFee := InactiveFee(snapshot, Model.DaysSinceActivity(acct, now), snapshot, 0);
      Collect(a, acct.(balance := snapshot - inactiveFee, isInactive := true,
                       inactiveSnapshot := snapshot, inactiveFeePaid := inactiveFee),
              storageFee + inactiveFee);
    }

    method PayInactiveFee(a: Model.Address, now: nat)
      requires Value().Get(a).isInactive
      modifies this
      ensures Value() == Model.PayInactiveFee(old(Value()), a, now)
    {
      var acct := Value().Get(a);
      var fee := Model.CalcInactiveFee(acct, now);
      if fee != 0 {
        Collect(a, acct.(balance := acct.balance - fee, inactiveFeePaid := acct.inactiveFeePaid + fee), fee);
      }
    }

    method Reactivate(a: Model.Address, now: nat)
      modifies this
      ensures Value() == Model.Reactivate(old(Value()), a, now)
    {
      var acct := Value().Get(a);
      Store(a, acct.(isInactive := false, inactiveSnapshot := 0, inactiveFeePaid := 0,
                     storageFeeClock := now, storageFeeGraceDays := storageFeeGracePeriodDays));
    }

    method MarkIfIdle(a: Model.Address, now: nat)
      modifies this
      ensures Value() == Model.MarkIfIdle(old(Value()), a, now)
    {
      if Model.CanMarkInactive(Value().Get(a), now) {
        SetInactive(a, now);
      }
    }

    method Touch(a: Model.Address, now: nat)
      modifies this
      ensures Value() == Model.Touch(old(Value()), a, now)
    {
      MarkIfIdle(a, now);
      if Value().Get(a).isInactive {
        PayInactiveFee(a, now);
        Reactivate(a, now);
      }
      var acct := Value().Get(a);
      Store(a, acct.(lastActivity := now));
    }

    method SettleSender(a: Model.Address, now: nat)
      modifies this
      ensures Value() == Model.SettleSender(old(Value()), a, now)
    {
      Touch(a, now);
      PayStorageFeeOf(a, now);
    }

    method SettleRecipient(a: Model.Address, now: nat)
      modifies this
      ensures Value() == Model.SettleRecipient(old(Value()), a, now)
    {
      MarkIfIdle(a, now);
      if Value().Get(a).isInactive {
        PayInactiveFee(a, now);
      } else {
        PayStorageFeeOf(a, now);
      }
    }

    method ReceiveClock(a: Model.Address, now: nat)
      modifies this
      ensures Value() == Model.ReceiveClock(old(Value()), a, now)
    {
      var acct := Value().Get(a);
      if acct.storageFeeClock == 0 {
        Store(a, acct.(storageFeeClock := now, storageFeeGraceDays := storageFeeGracePeriodDays,
                       lastActivity := if acct.lastActivity == 0 then now else acct.lastActivity));
      } else if !acct.isInactive && Sub0(ElapsedDays(acct.storageFeeClock, now), acct.storageFeeGraceDays) > 0 {
        Store(a, acct.(storageFeeClock := now, storageFeeGraceDays := 0));
      }
    }

    // -------------------------------------------------------------------
    // Operations
    // -------------------------------------------------------------------

    /** `transfer`: both sides settle, the value moves and the sender pays
        the transfer fee; a failed transfer reverts every step. */
    method Transfer(sender: Model.Address, to: Model.Address, value: nat, now: nat) returns (status: Status)
      modifies this
      ensures var spec := Model.Transfer(old(Value()), sender, to, value, now);
              if spec.Ok? then status == Success && Value() == spec.value
              else status == Failure(spec.error) && Value() == old(Value())
      ensures old(Valid()) ==> Valid()
    {
      if to == Model.ZERO_ADDRESS {
        return Failure(Model.ZeroAddress);
      }
      if to == roles.contractAddress {
        return Failure(Model.ContractAddress);
      }
      if !Model.RouteAllowed(roles, sender, to) {
        return Failure(Model.RouteNotAllowed);
      }
      ghost var L := Value();
      var saved := accounts;
      var fee := if to == sender then 0 else Model.CalcTransferFee(Value(), sender, value);
      SettleSender(sender, now);
      if to != sender {
        SettleRecipient(to, now);
      }
      TransferProofs.TransferSettled(L, sender, to, value, now);
      if Value().Balance(sender) < value + fee {
        accounts := saved;
        return Failure(Model.InsufficientBalance);
      }
      Move(sender, to, value);
      Move(sender, roles.feeAddress, fee);
      ReceiveClock(to, now);
      if Model.Valid(L) {
        SupplyProofs.TransferConserves(L, sender, to, value, now);
      }
      return Success;
    }

    /** `approve`, kept only as a signal of activity. */
    method Approve(sender: Model.Address, spender: Model.Address, now: nat) returns (status: Status)
      modifies this
      ensures var spec := Model.Approve(old(Value()), sender, spender, now);
              if spec.Ok? then status == Success && Value() == spec.value
              else status == Failure(spec.error) && Value() == old(Value())
      ensures old(Valid()) ==> Valid()
    {
      if spender == Model.ZERO_ADDRESS {
        return Failure(Model.ZeroAddress);
      }
      ghost var L := Value();
      Touch(sender, now);
      if Model.Valid(L) {
        SupplyProofs.ApproveConserves(L, sender, spender, now);
      }
      return Success;
    }

    /** `payStorageFee`: the sender settles its own fees. */
    method PayStorageFee(sender: Model.Address, now: nat)
      modifies this
      ensures Value() == Model.PayOwnStorageFee(old(Value()), sender, now)
      ensures old(Valid()) ==> Valid()
    {
      ghost var L := Value();
      SettleSender(sender, now);
      if Model.Valid(L) {
        SupplyProofs.PayOwnStorageFeeConserves(L, sender, now);
      }
    }

    /** `forcePayFees`: the fee enforcer collects what `a` owes. */
    method ForcePayFees(caller: Model.Address, a: Model.Address, now: nat) returns (status: Status)
      modifies this
      ensures var spec := Model.ForcePayFees(old(Value()), caller, a, now);
              if spec.Ok? then status == Success && Value() == spec.value
              else status == Failure(spec.error) && Value() == old(Value())
      ensures old(Valid()) ==> Valid()
    {
      ghost var L := Value();
      var acct := Value().Get(a);
      if caller != roles.feeEnforcer {
        return Failure(Model.NotFeeEnforcer);
      }
      if a == Model.ZERO_ADDRESS {
        return Failure(Model.ZeroAddress);
      }
      if acct.balance == 0 {
        return Failure(Model.NoBalance);
      }
      if acct.isInactive {
        if Model.CalcInactiveFee(acct, now) == 0 {
          return Failure(Model.NothingOwed);
        }
        PayInactiveFee(a, now);
      } else if Model.CanMarkInactive(acct, now) {
        SetInactive(a, now);
      } else if Model.DaysSincePaidStorageFee(acct, now) < YEAR_DAYS {
        return Failure(Model.StorageFeeNotDue);
      } else if Model.CalcStorageFee(acct, now) == 0 {
        return Failure(Model.NothingOwed);
      } else {
        PayStorageFeeOf(a, now);
      }
      if Model.Valid(L) {
        SupplyProofs.ForcePayFeesConserves(L, caller, a, now);
      }
      return Success;
    }

    /** `setAccountInactive`: the fee enforcer marks an idle account. */
    method SetAccountInactive(caller: Model.Address, a: Model.Address, now: nat) returns (status: Status)
      modifies this
      ensures var spec := Model.SetAccountInactive(old(Value()), caller, a, now);
              if spec.Ok? then status == Success && Value() == spec.value
              else status == Failure(spec.error) && Value() == old(Value())
      ensures old(Valid()) ==> Valid()
    {
      if caller != roles.feeEnforcer {
        return Failure(Model.NotFeeEnforcer);
      }
      if !Model.CanMarkInactive(Value().Get(a), now) {
        return Failure(Model.CannotMarkInactive);
      }
      ghost var L := Value();
      SetInactive(a, now);
      if Model.Valid(L) {
        SupplyProofs.SetAccountInactiveConserves(L, caller, a, now);
      }
      return Success;
    }

    /** `addBackedTokens`, given the gold the oracle reports as locked. */
    method AddBackedTokens(caller: Model.Address, value: nat, lockedGold: nat) returns (status: Status)
      modifies this
      ensures var spec := Model.AddBackedTokens(old(Value()), caller, value, lockedGold);
              if spec.Ok? then status == Success && Value() == spec.value
              else status == Failure(spec.error) && Value() == old(Value())
      ensures old(Valid()) ==> Valid()
    {
      ghost var L := Value();
      var unbacked := roles.unbackedTreasury;
      var backed := roles.backedTreasury;
      var available := Value().Balance(unbacked);
      if caller != roles.owner {
        return Failure(Model.NotOwner);
      }
      if Model.Circulation(Value()) + value > lockedGold {
        return Failure(Model.ExceedsLockedGold);
      }
      if value <= available {
        Move(unbacked, backed, value);
      } else {
        if totalSupply + (value - available) > SUPPLY_LIMIT {
          return Failure(Model.ExceedsSupplyLimit);
        }
        Move(unbacked, backed, available);
        Credit(backed, value - available);
        totalSupply := totalSupply + (value - available);
      }
      if Model.Valid(L) {
        SupplyProofs.AddBackedTokensEffect(L, caller, value, lockedGold);
      }
      return Success;
    }

    method SetStorageFeeGracePeriodDays(caller: Model.Address, days: nat) returns (status: Status)
      modifies this
      ensures var spec := Model.SetStorageFeeGracePeriodDays(old(Value()), caller, days);
              if spec.Ok? then status == Success && Value() == spec.value
              else status == Failure(spec.error) && Value() == old(Value())
      ensures old(Valid()) ==> Valid()
    {
      if caller != roles.owner {
        return Failure(Model.NotOwner);
      }
      ghost var L := Value();
      storageFeeGracePeriodDays := days;
      if Model.Valid(L) {
        SupplyProofs.SettingsConserve(L, caller, days, 0);
      }
      return Success;
    }

    method SetTransferFeeBasisPoints(caller: Model.Address, basisPoints: nat) returns (status: Status)
      modifies this
      ensures var spec := Model.SetTransferFeeBasisPoints(old(Value()), caller, basisPoints);
              if spec.Ok? then status == Success && Value() == spec.value
              else status == Failure(spec.error) && Value() == old(Value())
      ensures old(Valid()) ==> Valid()
    {
      if caller != roles.owner {
        return Failure(Model.NotOwner);
      }
      if basisPoints > MAX_TRANSFER_FEE_BASIS_POINTS {
        return Failure(Model.FeeAboveMaximum);
      }
      ghost var L := Value();
      transferFeeBasisPoints := basisPoints;
      if Model.Valid(L) {
        SupplyProofs.SettingsConserve(L, caller, 0, basisPoints);
      }
      return Success;
    }

    // -------------------------------------------------------------------
    // Totals
    // -------------------------------------------------------------------

    /** Adds up the balances of `addrs` one by one. When the addresses are
        distinct and include every address holding a record, the sum is the
        total supply. */
    method SumBalances(addrs: seq<Model.Address>) returns (sum: nat)
      ensures sum == SumOver(accounts, addrs)
      ensures (&& Valid()
               && Distinct(addrs)
               && (forall a :: a in accounts ==> a in addrs))
              ==> sum == totalSupply
    {
      sum := 0;
      var i := 0;
      while i < |addrs|
        invariant 0 <= i <= |addrs|
        invariant sum == SumOver(accounts, addrs[..i])
      {
        assert addrs[..i + 1][..i] == addrs[..i];
        sum := sum + Value().Balance(addrs[i]);
        i := i + 1;
      }
      assert addrs[..i] == addrs;
      if Valid() && Distinct(addrs)
         && (forall a :: a in accounts ==> a in addrs) {
        SumOverCoversTotal(accounts, addrs);
      }
    }
  }
}
