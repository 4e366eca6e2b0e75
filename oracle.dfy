/** The locked-gold oracle: a counter of the gold held in the vault, which
    only its owner adjusts. Gold may be unlocked only while what stays
    locked still covers every token in circulation. */
module Oracle {
  import opened Fees
  import Model = Ledger
  import Token
  import SupplyProofs
  import Conservation

  datatype OracleError =
    | NotOwner
    /** More gold would be unlocked than is locked. */
    | ExceedsLocked
    /** What stays locked would not cover the circulation. */
    | BelowCirculation
    /** No token contract is registered to read the circulation from. */
    | NoCacheContract

  datatype OracleStatus = Done | Refused(error: OracleError)

  /** Whether `amount` may be unlocked from `locked` while `circulation`
      tokens circulate. */
  function UnlockCheck(locked: nat, amount: nat, circulation: nat): (r: OracleStatus)
    ensures r == Done <==> amount <= locked && circulation <= locked - amount
    ensures r == Done ==> circulation + amount <= locked
  {
    if amount > locked then Refused(ExceedsLocked)
    else if locked - amount < circulation then Refused(BelowCirculation)
    else Done
  }

  /** Gold matched by circulating tokens stays locked; returning tokens to
      the unbacked treasury releases exactly as much gold. */
  lemma UnlockAfterReturn(L: Model.Ledger, locked: nat, value: nat, now: nat)
    requires Model.Valid(L)
    requires Model.Circulation(L) <= locked
    requires value <= L.Balance(L.roles.backedTreasury)
    ensures UnlockCheck(locked, locked - Model.Circulation(L) + 1, Model.Circulation(L)) != Done
    ensures var r := Model.Transfer(L, L.roles.backedTreasury, L.roles.unbackedTreasury, value, now);
            r.Ok? && UnlockCheck(locked, locked - Model.Circulation(L) + value, Model.Circulation(r.value)) == Done
  {
    SupplyProofs.ReturnToUnbackedLowersCirculation(L, L.roles.backedTreasury, value, now);
  }

  /** Minting against the oracle, following the vault scenario: with no gold
      locked nothing can be minted; with 1000 tokens' worth locked, 1100
      tokens are refused and 1000 accepted, leaving 1000 in circulation, so
      no gold can be unlocked until 200 tokens return to the unbacked
      treasury, after which 100 and then another 100 can be. */
  lemma {:induction false} VaultScenario(roles: Model.Roles, now: nat)
    requires Model.RolesValid(roles)
    ensures var L := Model.Initial(roles);
            && Model.AddBackedTokens(L, roles.owner, 1100 * TOKEN, 0).Err?
            && Model.AddBackedTokens(L, roles.owner, 1100 * TOKEN, 1000 * TOKEN).Err?
            && Model.AddBackedTokens(L, roles.owner, 1000 * TOKEN, 1000 * TOKEN).Ok?
    ensures var L1 := Model.AddBackedTokens(Model.Initial(roles), roles.owner, 1000 * TOKEN, 1000 * TOKEN).value;
            && Model.Circulation(L1) == 1000 * TOKEN
            && UnlockCheck(1000 * TOKEN, 100 * TOKEN, Model.Circulation(L1)) == Refused(BelowCirculation)
            && Model.Transfer(L1, roles.backedTreasury, roles.unbackedTreasury, 200 * TOKEN, now).Ok?
    ensures var L1 := Model.AddBackedTokens(Model.Initial(roles), roles.owner, 1000 * TOKEN, 1000 * TOKEN).value;
            var L2 := Model.Transfer(L1, roles.backedTreasury, roles.unbackedTreasury, 200 * TOKEN, now).value;
            && UnlockCheck(1000 * TOKEN, 100 * TOKEN, Model.Circulation(L2)) == Done
            && UnlockCheck(900 * TOKEN, 100 * TOKEN, Model.Circulation(L2)) == Done
  {
    var L := Model.Initial(roles);
    Conservation.InitialValid(roles);
    assert Model.Circulation(L) == 0 && L.Balance(roles.unbackedTreasury) == 0;
    SupplyProofs.AddBackedTokensEffect(L, roles.owner, 1100 * TOKEN, 0);
    SupplyProofs.AddBackedTokensEffect(L, roles.owner, 1100 * TOKEN, 1000 * TOKEN);
    SupplyProofs.AddBackedTokensEffect(L, roles.owner, 1000 * TOKEN, 1000 * TOKEN);
    var L1 := Model.AddBackedTokens(L, roles.owner, 1000 * TOKEN, 1000 * TOKEN).value;
    SupplyProofs.ReturnToUnbackedLowersCirculation(L1, roles.backedTreasury, 200 * TOKEN, now);
  }

  class LockedGoldOracle {
    const owner: Model.Address
    var lockedGold: nat
    var cache: Token.CacheGold?

    constructor (owner: Model.Address)
      ensures this.owner == owner && lockedGold == 0 && cache == null
    {
      this.owner := owner;
      lockedGold := 0;
      cache := null;
    }

    /** The owner registers the token whose circulation bounds unlocking. */
    method SetCacheContract(caller: Model.Address, token: Token.CacheGold) returns (status: OracleStatus)
      modifies this
      ensures caller == owner ==> status == Done && cache == token && lockedGold == old(lockedGold)
      ensures caller != owner ==> status == Refused(NotOwner) && unchanged(this)
    {
      if caller != owner {
        return Refused(NotOwner);
      }
      cache := token;
      return Done;
    }

    /** The owner records `amount` more gold as locked. */
    method LockAmount(caller: Model.Address, amount: nat) returns (status: OracleStatus)
      modifies this
      ensures caller == owner ==> status == Done && lockedGold == old(lockedGold) + amount && cache == old(cache)
      ensures caller != owner ==> status == Refused(NotOwner) && unchanged(this)
    {
      if caller != owner {
        return Refused(NotOwner);
      }
      lockedGold := lockedGold + amount;
      return Done;
    }

    /** The owner records `amount` gold as no longer locked, provided what
        stays locked still covers the token's circulation. */
    method UnlockAmount(caller: Model.Address, amount: nat) returns (status: OracleStatus)
      modifies this
      ensures cache == old(cache)
      ensures status == Done <==>
                caller == owner && cache != null &&
                UnlockCheck(old(lockedGold), amount, Model.Circulation(cache.Value())) == Done
      ensures status == Done ==> lockedGold == old(lockedGold) - amount
      ensures status == Done ==> Model.Circulation(cache.Value()) <= lockedGold
      ensures status != Done ==> lockedGold == old(lockedGold)
    {
      if caller != owner {
        return Refused(NotOwner);
      }
      if cache == null {
        return Refused(NoCacheContract);
      }
      var circulation := Model.Circulation(cache.Value());
      status := UnlockCheck(lockedGold, amount, circulation);
      if status == Done {
        lockedGold := lockedGold - amount;
      }
    }

    /** The token mints against the gold this oracle reports as locked. */
    method AddBackedTokens(caller: Model.Address, value: nat) returns (status: Token.Status)
      requires cache != null
      modifies cache
      ensures var spec := Model.AddBackedTokens(old(cache.Value()), caller, value, lockedGold);
              if spec.Ok? then status == Token.Success && cache.Value() == spec.value
              else status == Token.Failure(spec.error) && cache.Value() == old(cache.Value())
      ensures old(cache.Valid()) ==> cache.Valid()
      ensures old(cache.Valid()) && status == Token.Success ==> Model.Circulation(cache.Value()) <= lockedGold
    {
      ghost var L := cache.Value();
      status := cache.AddBackedTokens(caller, value, lockedGold);
      if Model.Valid(L) {
        SupplyProofs.AddBackedTokensEffect(L, caller, value, lockedGold);
      }
    }
  }
}
