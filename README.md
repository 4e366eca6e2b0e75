# CACHE Gold token ledger and locked-gold oracle

CACHE Gold is a gold-backed token with 8 decimals. Each token is one gram
of vaulted gold. The token charges three fees, all paid to a fee address:

- a storage fee of 25 basis points a year, prorated by whole days, after
  the grace days an address captured when it first received funds;
- an inactivity fee once an account has been idle for 1095 days: 50 basis
  points a year of the balance frozen when the account was marked inactive,
  and at least one token a year;
- a transfer fee of 10 basis points by default, at most 10.

The owner, the two treasuries, the fee address and the redeem address are
fee-exempt. A routing table restricts transfers that involve the
treasuries. Tokens are minted into the backed treasury only while the
circulation stays within the gold that the locked-gold oracle reports, and
the total supply stays within a hard limit. The oracle lets its owner lock
and unlock gold, but never below the circulation.

The repository's Solidity contracts are not part of this model. What the
model does is what the two test suites assert: their reference calculators
for the storage fee, the inactivity fee and "send all", their constants,
and the transitions and reverts their cases check.

The project has these modules:

- `Fees`: the fee formulas as pure functions over natural numbers, with
  their rounding, bounds and monotonicity.
- `Ledger`: the whole token state as a value.
  - A `Ledger` holds the account records, the supply, the settings and
    the roles.
  - Every step (collect a fee, mark inactive, reactivate, settle a sender
    or recipient, restart the storage clock) and every operation
    (`transfer`, `approve`, `payStorageFee`, `forcePayFees`,
    `setAccountInactive`, `addBackedTokens`, the two fee settings,
    `simulateTransfer`, `calcSendAllBalance`) is a function on it.
- `Conservation`, `Settlement`, `TransferProofs`, `SendAllProofs`,
  `ClockProofs`, `InactivityProofs`, `SupplyProofs`: lemmas about those
  functions. They cover:
  - supply conservation and the ledger invariant;
  - exactly which fees a settlement collects;
  - agreement between `simulateTransfer` and `transfer`;
  - that the send-all amount can be sent;
  - clock and grace-period behaviour;
  - inactivation thresholds;
  - minting rules.
- `Token`: the contract as a `class CacheGold` whose methods update its
  fields step by step. Each method is proved to end in the state the
  `Ledger` function gives and to keep the invariant. `SumBalances` adds up
  balances in a loop, as the test suite's total check does.
- `Oracle`: the `LockedGoldOracle` class and the rule that gates unlocking.

Time is the parameter `now`, in seconds. Whole days are floor(seconds /
86400). A time stamp of 0 means "never set". Addresses are natural numbers,
and address 0 is the zero address.

Where the tests and a plain reading of the design differ, the model follows
the tests:

- `setAccountInactive` is refused for callers other than the fee enforcer:
  test/CacheGoldTest.js:1135 reverts it from the backed treasury, and the
  suite's enforcer is its owner (test/CacheGoldTest.js:139).
- An active account pays its storage fee through `forcePayFees` only once
  that fee has run for at least 365 days: test/CacheGoldTest.js:629-634.
- A recipient whose storage clock has whole chargeable days on it, but whose
  fee rounded to nothing, gets its clock restarted on receipt:
  test/CacheGoldTest.js:1043-1067.
- `addBackedTokens` checks the circulation plus the value against the locked
  gold, not the total supply plus the net newly minted tokens. No test
  separates the two; they differ when the unbacked treasury holds supply,
  e.g. a supply of 500 units all in the unbacked treasury, 100 units of gold
  locked and a mint of 100: the model accepts, the supply-based rule
  refuses. The circulation-based rule matches the oracle's unlock check,
  which keeps the locked gold at or above the circulation
  (test/LockedGoldOracleTest.js:88-97).

## Model

| member | source | states |
|---|---|---|
| Fees.ElapsedDays | test/CacheGoldTest.js:1589-1605 | the whole days between two time stamps, rounded down; none when time has not moved forward |
| Fees.ChargedStorageDays | test/CacheGoldTest.js:64-71 | storage days are charged in full below the 1095-day idle threshold; from it on, the idle days past the threshold are subtracted from the days since payment, down to none when they are more |
| Fees.StorageFee | test/CacheGoldTest.js:64-80 | the storage fee never exceeds the balance |
| Fees.StorageFeeRounding | test/CacheGoldTest.js:73-79 | the storage fee is 25 bps a year prorated by days, rounded down, unless capped at the balance |
| Fees.StorageFeeNoDays | test/CacheGoldTest.js:1580-1585 | no chargeable day means no storage fee |
| Fees.StorageFeeMonotone | test/CacheGoldTest.js:64-80 | the storage fee never decreases as days accumulate |
| Fees.StorageFeePositiveAfterOneDay | test/CacheGoldTest.js:1594-1599 | from 146000 units up, one whole day makes the storage fee positive |
| Fees.StorageFeeMonotoneInBalance | test/CacheGoldTest.js:64-80 | a smaller balance never owes a larger storage fee |
| Fees.StorageFeeCapped | test/CacheGoldTest.js:1494-1502 | a positive balance's storage fee equals the whole balance exactly from 146000 days (400 years) on |
| Fees.YearlyInactiveFeeScaled | test/CacheGoldTest.js:89-93 | the yearly inactivity rate is 50 bps of the snapshot or one token, whichever is larger |
| Fees.AccruedInactiveFee | test/CacheGoldTest.js:95-96 | the accrued inactivity fee is the yearly rate prorated by the whole days past the threshold, rounded down; none up to 1095 days |
| Fees.InactiveFee | test/CacheGoldTest.js:84-103 | the inactivity fee owed is the accrued fee less what was paid, capped at the balance and never negative; nothing up to 1095 idle days |
| Fees.InactiveFeeZeroBeforeThreshold | test/CacheGoldTest.js:1120-1123 | no inactivity fee on the 1094th or the 1095th idle day |
| Fees.InactiveFeeAtLeastOneTokenPerYear | test/CacheGoldTest.js:89-96 | each full year past the threshold accrues at least one token |
| Fees.InactiveFeeMinimumRate | test/CacheGoldTest.js:1289-1313 | a snapshot of at most 200 tokens accrues exactly one token per year |
| Fees.InactiveFeeTwoYears | test/CacheGoldTest.js:84-103 | above the minimum, two years past the threshold accrue 1% of the snapshot |
| Fees.InactiveFeeSettles | test/CacheGoldTest.js:96 | after the owed inactivity fee is paid, nothing more is owed at the same instant |
| Fees.InactiveFeeMonotone | test/CacheGoldTest.js:95-96 | the inactivity fee owed never decreases with time |
| Fees.TransferFeeRounding | test/CacheGoldTest.js:15 | the transfer fee is the basis-point share of the amount, rounded down |
| Fees.TransferFeeDust | test/CacheGoldTest.js:1077-1087 | at 10 bps, 999 units pay no fee and 1000 units pay one |
| Fees.TransferFeeMonotone | test/CacheGoldTest.js:15 | a larger amount never pays a smaller transfer fee |
| Fees.TransferFeeAtMostAmount | test/CacheGoldTest.js:15 | at a rate of at most 100% the transfer fee never exceeds the amount |
| Fees.TransferFeeStep | test/CacheGoldTest.js:116 | one more unit sent adds at most one unit of fee |
| Fees.SendAll | test/CacheGoldTest.js:107-124 | the send-all amount and its transfer fee fit in the balance |
| Fees.QuotientFits | test/CacheGoldTest.js:113 | floor(balance / (1 + bp/10000)) fits with its fee |
| Fees.SendAllNextDoesNotFit | test/CacheGoldTest.js:118-122 | one unit more than send-all no longer fits with its fee |
| Fees.SendAllIsMaximal | test/CacheGoldTest.js:105-124 | every amount that fits with its fee is at most send-all |
| Fees.SendAllResidual | test/CacheGoldTest.js:1782-1788 | send-all leaves at most one unit, and none unless one more unit would raise the fee |
| Fees.SendAllOneUnit | test/CacheGoldTest.js:107-124 | a settled balance of one unit is sent in full at any rate below 100% |
| Fees.SendAllWithoutFee | test/CacheGoldTest.js:1635-1644 | without a transfer fee, send-all is the whole balance |
| Ledger.CalcStorageFee | test/CacheGoldTest.js:367-436 | the storage fee owed is at most the balance; none for inactive or exempt accounts, and none within the captured grace days |
| Ledger.CalcInactiveFee | test/CacheGoldTest.js:1116-1147 | the inactivity fee plus the storage fee fit in the balance; an active account that cannot be marked inactive owes none |
| Ledger.CalcOwedFees | test/CacheGoldTest.js:789-846 | all fees owed fit in the balance; an exempt active account owes none |
| Ledger.CanMarkInactive | test/CacheGoldTest.js:1116-1136 | an account can be marked inactive only if it has an activity time and 1095 whole days have passed since it |
| Ledger.CalcTransferFee | test/CacheGoldTest.js:789-846 | an exempt sender pays no transfer fee, and the fee never exceeds the value |
| Ledger.Circulation | test/CacheGoldTest.js:290-306 | the circulation is at most the supply, and with the unbacked treasury's balance covers it |
| Ledger.RouteAllowed | test/CacheGoldTest.js:530-566 | addresses that are neither treasury nor redeem address may pay one another; the refused routes are in `SupplyProofs.RoutingTable` |
| Ledger.Transfer | test/CacheGoldTest.js:530-581 | a transfer to the zero address is refused; a successful one is to an allowed route other than the contract address and keeps the settings and roles; a routed transfer fails only for an insufficient balance |
| Ledger.Approve | test/CacheGoldTest.js:309-346 | approve fails exactly for the zero spender, and otherwise records the sender's activity at now and keeps the settings |
| Ledger.PayOwnStorageFee | test/CacheGoldTest.js:662-720 | paying one's storage fee keeps the settings and the roles |
| Ledger.ForcePayFees | test/CacheGoldTest.js:617-659 | only the fee enforcer may force fees; success needs a nonzero address with a balance, keeps the settings, and leaves a markable account inactive |
| Ledger.SetAccountInactive | test/CacheGoldTest.js:1131-1136 | success needs the fee enforcer and an active, non-exempt account with a balance; it leaves the account inactive with its activity time unchanged |
| Ledger.AddBackedTokens | test/CacheGoldTest.js:440-527 | success needs the owner and a circulation within the locked gold; the supply grows by what the unbacked treasury could not cover, and the settings stay |
| Ledger.SetStorageFeeGracePeriodDays | test/CacheGoldTest.js:723-786 | the grace setting succeeds exactly for the owner and changes only the grace period |
| Ledger.SetTransferFeeBasisPoints | test/CacheGoldTest.js:1521-1548 | the fee setting succeeds exactly for the owner and a rate of at most 10 bps, and changes only the rate |
| Ledger.Simulate | test/CacheGoldTest.js:950-1001 | the simulation fails only for an insufficient balance; a self-transfer has no transfer fee and equal balances; otherwise the sender's balance drops by the value, the transfer fee and its fees, and the recipient's rises by the value less its fees |
| Ledger.CalcSendAllBalance | test/CacheGoldTest.js:1609-1645 | send-all is refused exactly for the zero address; otherwise the amount, its transfer fee and the fees owed fit in the balance |
| Ledger.Collect | test/CacheGoldTest.js:662-720 | collecting a fee lowers the payer's balance by it and raises the fee address's by it, and changes no other balance or record |
| Ledger.Move | test/CacheGoldTest.js:350-364 | moving tokens changes the two balances by the amount and nothing else |
| Ledger.Mint | test/CacheGoldTest.js:440-527 | minting raises one balance and the supply by the amount and changes nothing else |
| Ledger.Reactivate | test/CacheGoldTest.js:1216-1287 | reactivation changes no balance and no other record |
| Ledger.ReceiveClock | test/CacheGoldTest.js:1043-1067 | the recipient's clock changes no balance and no other record |
| Ledger.Initial | test/CacheGoldTest.js:290-306 | the ledger starts with nothing minted |
| Conservation.CollectConserves | test/CacheGoldTest.js:168-178 | a fee collection keeps the sum of balances and the well-formedness |
| Conservation.MoveConserves | test/CacheGoldTest.js:168-178 | a move keeps the sum of balances and the well-formedness |
| Conservation.MintConserves | test/CacheGoldTest.js:584-614 | minting raises the sum by the amount, and keeps well-formedness within the supply limit |
| Conservation.PayStorageFeeConserves | test/CacheGoldTest.js:662-720 | paying the storage fee keeps the sum and the well-formedness |
| Conservation.SetInactiveConserves | test/CacheGoldTest.js:1131-1147 | marking an account inactive keeps the sum and the well-formedness |
| Conservation.PayInactiveFeeConserves | test/CacheGoldTest.js:1169-1193 | paying the inactivity fee keeps the sum and the well-formedness |
| Conservation.ReactivateConserves | test/CacheGoldTest.js:1216-1287 | reactivation keeps the sum and the well-formedness |
| Conservation.TouchConserves | test/CacheGoldTest.js:1474-1482 | an activity signal keeps the sum and the well-formedness |
| Conservation.SettleSenderConserves | test/CacheGoldTest.js:1339-1370 | settling a sender keeps the sum and the well-formedness |
| Conservation.SettleRecipientConserves | test/CacheGoldTest.js:1431-1472 | settling a recipient keeps the sum and the well-formedness |
| Conservation.ReceiveClockConserves | test/CacheGoldTest.js:1043-1067 | restarting a recipient's clock keeps the sum and the well-formedness |
| Conservation.InitialValid | test/CacheGoldTest.js:237-288 | the deployed ledger satisfies the invariant, with the roles fee-exempt |
| Settlement.FeeAddressOwesNothing | test/CacheGoldTest.js:789-846 | the fee address owes no fee and cannot be marked inactive |
| Settlement.StorageFeeAfterTouch | test/CacheGoldTest.js:1474-1490 | recording activity does not change the storage fee of an account that is neither inactive nor markable |
| Settlement.PayInactiveFeeCharged | test/CacheGoldTest.js:1169-1193 | paying the inactivity fee moves exactly what was owed to the fee address; the account stays inactive and keeps its activity time |
| Settlement.SetInactiveCharged | test/CacheGoldTest.js:1131-1147 | marking inactive moves exactly what was owed to the fee address, and no inactivity fee remains due at that instant |
| Settlement.TouchIdleCharged | test/CacheGoldTest.js:1216-1287 | activity of an inactive or markable account collects what it owed and leaves it active, with its activity time and storage clock at now |
| Settlement.TouchPlain | test/CacheGoldTest.js:1474-1482 | activity of any other account only records the activity time |
| Settlement.SettleSenderEffect | test/CacheGoldTest.js:1339-1370 | settling a sender collects exactly the fees it owes; it ends active at now, and its clock moves only if a storage fee was realised |
| Settlement.SettleRecipientEffect | test/CacheGoldTest.js:1396-1472 | settling a recipient collects exactly the fees it owes; an idle recipient ends inactive, and its activity time does not move |
| TransferProofs.SettledBalances | test/CacheGoldTest.js:1339-1370 | after both sides settle, each balance has paid its owed fees to the fee address, and the ledger stays well formed |
| TransferProofs.SimulateSettled | test/CacheGoldTest.js:950-1001 | the simulation fails when the settled sender cannot cover value and fee; otherwise it reports the settled balances after the move, and a self-transfer has no transfer fee |
| TransferProofs.TransferSettled | test/CacheGoldTest.js:1005-1041 | a transfer settles the sender, then the recipient, then moves the value and the fee, and fails when the settled sender falls short |
| TransferProofs.TransferSucceedsIff | test/CacheGoldTest.js:574-580 | a routed transfer succeeds exactly when the settled sender covers the value and the transfer fee |
| TransferProofs.TransferBalances | test/CacheGoldTest.js:849-947 | a successful transfer leaves the sender, recipient and fee address with their settled balances moved by value and fee, and every other balance unchanged |
| TransferProofs.TransferMatchesSimulate | test/CacheGoldTest.js:1678-1735 | the transfer succeeds exactly when the simulation does; then the sender's and recipient's balances are the simulated ones, the fee address gains all simulated fees, and every other balance is unchanged |
| SendAllProofs.SendAllCanBeSent | test/CacheGoldTest.js:1609-1630 | the send-all amount can be transferred, leaving the sender at most one unit, and none unless one more unit would raise the fee |
| ClockProofs.ReceiveClockNoChargeableDays | test/CacheGoldTest.js:1060-1066 | after a receipt the recipient's clock has no chargeable day |
| ClockProofs.ReceiveClockRecord | test/CacheGoldTest.js:1043-1067 | a receipt changes only the clock, the grace days and an unset activity time of the recipient |
| ClockProofs.ReceiveClockCapturesGrace | test/CacheGoldTest.js:723-786 | a first credit starts the clock now with the current grace period |
| ClockProofs.ReceiveClockKeepsSettledClock | test/CacheGoldTest.js:1574-1607 | a receipt leaves a credited account with no chargeable day unchanged |
| ClockProofs.ReceiptLeavesNoChargeableDays | test/CacheGoldTest.js:1043-1067 | the recipient of a successful transfer owes no storage fee right after it |
| ClockProofs.SettleRecipientKeepsUnsetClock | test/CacheGoldTest.js:723-786 | settling a recipient that never received funds leaves its clock unset |
| ClockProofs.GraceCapturedOnFirstReceipt | test/CacheGoldTest.js:723-786 | the first receipt captures the grace period in force at that moment |
| ClockProofs.GraceChangeKeepsCapturedGrace | test/CacheGoldTest.js:723-786 | changing the grace period touches no account record |
| ClockProofs.SenderClockMovesOnlyWithFee | test/CacheGoldTest.js:1570-1607 | a transfer moves the sender's storage clock exactly when it realised a storage fee |
| ClockProofs.StorageFeeDueAfterChargeableDay | test/CacheGoldTest.js:1594-1602 | an account holding 146000 units or more owes a positive storage fee once a chargeable day has passed |
| ClockProofs.CalcStorageFeeMonotoneInBalance | test/CacheGoldTest.js:367-436 | lowering the balance never raises the storage fee owed |
| ClockProofs.SettledSenderOwesNothing | test/CacheGoldTest.js:662-720 | a settled sender is active at now and owes no storage fee |
| ClockProofs.LowerBalanceOwesNothing | test/CacheGoldTest.js:1005-1041 | an account owing nothing still owes nothing with a lower balance |
| ClockProofs.SenderRecordAfterTransfer | test/CacheGoldTest.js:849-947 | after settlement, the rest of a transfer changes only the sender's balance, and does not raise it |
| ClockProofs.SelfTransferRecord | test/CacheGoldTest.js:1005-1041 | after a self-transfer the sender's record is its settled record, active at now with no chargeable day |
| ClockProofs.TransferSettlesSender | test/CacheGoldTest.js:1339-1370 | after a successful transfer the sender owes no fee |
| ClockProofs.PayOwnStorageFeeIdempotent | test/CacheGoldTest.js:662-720 | paying one's own storage fee twice at the same instant changes nothing the second time |
| ClockProofs.SettledSenderStored | test/CacheGoldTest.js:662-720 | settling a sender stores its record |
| ClockProofs.SettledSenderIsFixed | test/CacheGoldTest.js:662-720 | a stored record active at now and owing no storage fee is left as it is by a sender's settlement |
| InactivityProofs.InactivationThreshold | test/CacheGoldTest.js:1131-1136 | while the storage fee leaves part of the balance (fewer than 146000 chargeable days), the fee enforcer can mark an account with funds inactive exactly from the 1095th idle day; anyone else is refused |
| InactivityProofs.ExemptNeverInactive | test/CacheGoldTest.js:1207 | an exempt account can never be marked inactive |
| InactivityProofs.InactivationDay | test/CacheGoldTest.js:1116-1136 | marking inactive is refused on the 1094th idle day and accepted on the 1095th |
| InactivityProofs.ForcePayCharges | test/CacheGoldTest.js:1372-1394 | a successful forcePayFees moves exactly what the account owed to the fee address and is no activity of the account |
| InactivityProofs.ForcePayRefusals | test/CacheGoldTest.js:617-659 | forcePayFees by the enforcer fails exactly when nothing is due: no inactivity fee, or a storage fee under a year old or of zero |
| InactivityProofs.ForcePayAfterOneYear | test/CacheGoldTest.js:632-645 | after 366 days, forcing the fees of 1000 tokens collects 2.50684931 tokens and restarts the clock |
| InactivityProofs.ApproveReactivates | test/CacheGoldTest.js:1474-1482 | an approve by an inactive account collects what it owed and reactivates it with a fresh clock |
| SupplyProofs.BalanceAtMostTotal | test/CacheGoldTest.js:168-178 | no balance exceeds the sum of all balances |
| SupplyProofs.CirculationExact | test/CacheGoldTest.js:290-306 | the circulation is the supply less the unbacked treasury's balance |
| SupplyProofs.AddBackedTokensEffect | test/CacheGoldTest.js:440-527 | addBackedTokens succeeds exactly for the owner within the locked gold and the supply limit; it drains the unbacked treasury first, mints only the rest, raises the circulation by the value and keeps the invariant |
| SupplyProofs.SettlementConserves | test/CacheGoldTest.js:168-178 | both sides settling keeps the sum of balances |
| SupplyProofs.MovesConserve | test/CacheGoldTest.js:168-178 | moving the value and the fee keeps the sum of balances |
| SupplyProofs.TransferConserves | test/CacheGoldTest.js:1744-1745 | a successful transfer keeps the invariant and the supply |
| SupplyProofs.PayOwnStorageFeeConserves | test/CacheGoldTest.js:662-720 | payStorageFee keeps the invariant and the supply |
| SupplyProofs.ApproveConserves | test/CacheGoldTest.js:309-346 | approve keeps the invariant and the supply |
| SupplyProofs.ForcePayFeesConserves | test/CacheGoldTest.js:617-659 | forcePayFees keeps the invariant and the supply |
| SupplyProofs.SetAccountInactiveConserves | test/CacheGoldTest.js:1131-1147 | setAccountInactive keeps the invariant and the supply |
| SupplyProofs.SettingsConserve | test/CacheGoldTest.js:1521-1548 | the fee settings keep the invariant; a transfer fee is accepted exactly from the owner and at most 10 bps |
| SupplyProofs.ReturnToUnbackedLowersCirculation | test/LockedGoldOracleTest.js:92-93 | sending from the backed treasury or the redeem address to the unbacked treasury succeeds and lowers the circulation by the value |
| SupplyProofs.RoutingTable | test/CacheGoldTest.js:543-566 | outside addresses and the fee address cannot pay into a treasury; the unbacked treasury and the redeem address cannot pay outside; the permitted treasury routes are open |
| Token.SumOverCoversTotal | test/CacheGoldTest.js:168-178 | summing the balances of distinct addresses that cover every record gives the sum of all balances |
| Token.CacheGold.constructor | test/CacheGoldTest.js:152-164 | the deployed token is the initial ledger, valid and with nothing minted |
| Token.CacheGold.Transfer | test/CacheGoldTest.js:530-581 | transfer ends in the state of the ledger function and keeps the invariant; a failure reports the reason and leaves the state unchanged |
| Token.CacheGold.Approve | test/CacheGoldTest.js:1474-1482 | approve ends in the ledger function's state, or reverts to the old state |
| Token.CacheGold.PayStorageFee | test/CacheGoldTest.js:662-720 | payStorageFee ends in the ledger function's state and keeps the invariant |
| Token.CacheGold.ForcePayFees | test/CacheGoldTest.js:617-659 | forcePayFees ends in the ledger function's state, or reverts to the old state |
| Token.CacheGold.SetAccountInactive | test/CacheGoldTest.js:1131-1136 | setAccountInactive ends in the ledger function's state, or reverts to the old state |
| Token.CacheGold.AddBackedTokens | test/CacheGoldTest.js:584-614 | addBackedTokens ends in the ledger function's state, or reverts to the old state |
| Token.CacheGold.SetStorageFeeGracePeriodDays | test/CacheGoldTest.js:723-786 | the grace setting ends in the ledger function's state, or reverts to the old state |
| Token.CacheGold.SetTransferFeeBasisPoints | test/CacheGoldTest.js:1521-1548 | the fee setting ends in the ledger function's state, or reverts to the old state |
| Token.CacheGold.SumBalances | test/CacheGoldTest.js:168-178 | the loop's sum is the sum over the listed addresses, and it equals the total supply when they are distinct and cover every record |
| Oracle.UnlockCheck | test/LockedGoldOracleTest.js:63-68 | an unlock is allowed exactly when it does not exceed the locked gold and what stays locked covers the circulation |
| Oracle.UnlockAfterReturn | test/LockedGoldOracleTest.js:88-97 | gold matching the circulation cannot be unlocked; returning tokens to the unbacked treasury frees exactly as much gold |
| Oracle.VaultScenario | test/LockedGoldOracleTest.js:71-100 | with no gold locked, minting 1100 tokens fails; with 1000 locked, 1100 fails and 1000 succeeds; unlocking 100 then fails until 200 tokens return; after that, two unlocks of 100 succeed |
| Oracle.LockedGoldOracle.constructor | test/LockedGoldOracleTest.js:36-38 | a new oracle has nothing locked and no token contract |
| Oracle.LockedGoldOracle.SetCacheContract | test/LockedGoldOracleTest.js:45 | the owner registers the token contract; anyone else is refused and nothing changes |
| Oracle.LockedGoldOracle.LockAmount | test/LockedGoldOracleTest.js:50-60 | the owner raises the locked gold by the amount; anyone else is refused and nothing changes |
| Oracle.LockedGoldOracle.UnlockAmount | test/LockedGoldOracleTest.js:62-68 | an unlock succeeds exactly for the owner, with a token registered, when the check allows it; it lowers the locked gold by the amount, which still covers the circulation |
| Oracle.LockedGoldOracle.AddBackedTokens | test/LockedGoldOracleTest.js:80-86 | minting through the registered token follows the ledger function with the oracle's locked gold, keeps the invariant, and keeps the circulation within the locked gold |

## Left out

- Allowances, `transferFrom`, `increaseAllowance` and `decreaseAllowance` are left out. Only `approve` is kept, as an activity signal; allowance bookkeeping does not touch fees or balances.
- The owner's address setters, `setFeeExempt`, `unsetFeeExempt`, `setOracleAddress` and `transferOwnership` are left out. The roles are a fixed parameter, so role changes and their fee-exempt side effect are not modelled.
- Events, gas and the ERC-20 metadata are left out: they have no effect on balances.
- Block time is the parameter `now`; the EVM clock is not modelled.
- `balanceOf` is not modelled. test/CacheGoldTest.js:1788 fixes `balanceOf` at 0 on a settled residue of at most one unit (test/CacheGoldTest.js:1783-1788). At a nonzero transfer fee, `Ledger.CalcSendAllBalance` gives 1 on that residue, because the fee on one unit rounds to nothing (`Fees.SendAllOneUnit`). So the model's send-all amount and the tests' `balanceOf` differ on that residue.
- `balanceOfNoFees`, `totalCirculation`, `daysSinceActivity` and `daysSincePaidStorageFee` are the record balance, `Ledger.Circulation`, `Ledger.DaysSinceActivity` and `Ledger.DaysSincePaidStorageFee`; they have no further rows.
- The tests' floating-point reference arithmetic and their one-unit tolerances are left out. The model uses exact integer division that rounds down, so it states the calculation the tolerances approximate.
- The storage-fee reference at test/CacheGoldTest.js:69-70 subtracts the idle days past the threshold without a lower bound. Here is an account that goes negative:
  - It sent its whole balance away and then stayed idle for more than 1095 days.
  - It then receives tokens. It cannot be marked inactive with a zero balance, so its clock restarts with no grace days.
  - From then on, its days since payment are fewer than its idle days past the threshold. The reference would compute negative storage days and a negative fee.
  - The tests never reach this state. `Fees.ChargedStorageDays` charges no days there, a choice of this model.
- Fees.TransferFee: its contract states nothing by itself; its rounding, its monotonicity and its step are `Fees.TransferFeeRounding`, `Fees.TransferFeeMonotone` and `Fees.TransferFeeStep`.
- Ledger.PayStorageFee, Ledger.SetInactive, Ledger.PayInactiveFee, Ledger.MarkIfIdle, Ledger.Touch, Ledger.Settle, Ledger.SettleSender and Ledger.SettleRecipient: their own contracts only keep the settings and the roles; their effect on balances and records is stated by the `Settlement` and `Conservation` lemmas.
- Ledger.Initial: its contract states only the empty supply; `Conservation.InitialValid` states the invariant.
- Oracle.LockedGoldOracle.UnlockAmount: an unlock is refused while no token contract is registered; the deployed oracle always has one.
- Idempotence is proved for settling a sender, not for settling a recipient.
- The owner's transfer of tokens out of the unbacked treasury is checked against the routing table only. It is not checked against the locked gold, because the tests never make such a check fail: their transfers from the unbacked to the backed treasury (test/CacheGoldTest.js:463, 561) run while the oracle reports `SUPPLY_LIMIT` locked (test/CacheGoldTest.js:155).
- The Solidity contracts themselves (CacheGold.sol, LockedGoldOracle.sol) are not part of this model; their behaviour is taken from the two test suites.
