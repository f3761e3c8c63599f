# Confidential staking: a Dafny model

This project models the logic of the confidential-stake application:

- **The staking ledger** (`staking_ledger.dfy`, module `StakingLedger`). Each account has three values: a staked cETH balance, an accrued cUSDT reward and the time of its last settlement. `stakeOne`, `withdrawOne` and `claim` first settle the reward earned since that time. They then add one unit, remove one unit, or pay out the whole reward. Reward accrues per second at `RATE_PER_DAY * elapsed * staked / (SECONDS_PER_DAY * ONE)`, truncated to a whole base unit. `ONE = 1_000_000`, `RATE_PER_DAY = 10_000_000` and `SECONDS_PER_DAY = 86_400`. The contract is the class `Ledger`. Its field `positions` maps each account to a `Position`, and its methods update that map in place. Each method is specified by a pure step function (`StakeStep`, `WithdrawStep`, `ClaimStep`) over one position. The three scenarios of the contract's test suite are replayed as methods on a fresh ledger.
- **`formatUnits6`** (`units_format.dfy`, module `UnitsFormat`). The staking page uses it to render a 6-decimal balance as `whole.frac`. It is modelled together with the JavaScript string operations it is built from: `toString`, `padStart` and `slice`. An inverse parser `ParseUnits6` serves as its partner.
- **The frontend configuration** (`contract_config.dfy`, module `ContractConfig`). This covers the hard-coded contract addresses, the case-insensitive zero-address test, its conjunction over the three core contracts, and the derived constants.

`wrappers.dfy` holds the `Option`, `Result` and `Outcome` datatypes used for absent values and reverts.

The Solidity source of `ConfidentialStaking` is not part of this model's sources. Its behaviour is taken from two places: the Hardhat tests (`test/ConfidentialStaking.ts`) and the contract's ABI (`ui/src/config/contracts.ts:20-283`). The ABI gives the function names, the `uint64` result types and four custom errors. The modelled operations use three of them: `AccrualOverflow`, `InsufficientStaked` and `NothingToClaim`. The fourth, `OperatorNotAuthorized`, belongs to token transfers (see Left out).

Policies chosen where the sources leave a choice:

- **Reads.** `getAccruedUSDT` projects the reward up to the caller's `now` without changing storage. The test reads a grown value after only advancing the clock (test lines 41-44). The projection is exactly what a settlement at `now` would store.
- **Overflow.** When a settled reward would exceed 2^64 - 1, the call fails with `AccrualOverflow` and the position is left as it was. The read fails the same way.
- **Zero claims.** Whether a claim of a zero reward fails with `NothingToClaim` is the constant `failOnNothingToClaim`, fixed when the ledger is constructed.
- **Withdraw order.** `withdrawOne` checks for a whole staked unit before it settles. A failing withdraw leaves the position unchanged. The test expects the revert reason "Insufficient staked" (test line 73), while the ABI declares the custom error `InsufficientStaked`. Both are the one error `InsufficientStaked` here.
- **Time.** `now` is the block timestamp. A `now` earlier than the stored last update counts as zero elapsed seconds, and the last update time then stays where it was (`Max(lastUpdate, now)`). On chain, block time never decreases, so in every reachable run this sets the last update time to `now`.

## Model

| member | source | states |
|---|---|---|
| `StakingLedger.Accrual` | test/ConfidentialStaking.ts:5-7 | the accrued amount is the floor of `RATE_PER_DAY * elapsed * staked / (SECONDS_PER_DAY * ONE)`; nothing accrues with nothing staked or no time elapsed |
| `StakingLedger.AccrualOfOneUnit` | test/ConfidentialStaking.ts:47 | for one staked unit the per-second formula equals the test's `RATE_PER_DAY * elapsed / SECONDS_PER_DAY`, for every elapsed time |
| `StakingLedger.AccrualOfOneUnitForOneHour` | test/ConfidentialStaking.ts:40-50 | one unit staked for 3600 s earns exactly 416_666 base units |
| `StakingLedger.AccrualSplit` | test/ConfidentialStaking.ts:48-50 | settling in between loses at most one base unit to truncation: the reward over two spans is the reward over the whole span or one less |
| `StakingLedger.AccrualGrows` | ui/src/components/StakingApp.tsx:80 | with at least one unit staked, the reward grows by at least one base unit every second (per-second accrual) |
| `StakingLedger.Elapsed` | test/ConfidentialStaking.ts:41-44 | the elapsed time is how far the clock has moved past the last update: last update plus elapsed is the later of the two times |
| `StakingLedger.ProjectedAccrued` | test/ConfidentialStaking.ts:41-44 | the projected reward is never below the stored reward and equals it when no time has passed or nothing is staked |
| `StakingLedger.Settle` | test/ConfidentialStaking.ts:22-26 | settlement keeps the staked balance, never lowers the reward, never moves the last update time back, fails with `AccrualOverflow` exactly when the reward would exceed 2^64 - 1, and leaves the projection at `now` unchanged |
| `StakingLedger.SettleIdempotent` | test/ConfidentialStaking.ts:25-26 | a second settlement at the same instant changes nothing |
| `StakingLedger.SettleThenProject` | test/ConfidentialStaking.ts:44-50 | an intermediate settlement changes a later projected reward by at most one base unit |
| `StakingLedger.ProjectionGrowsWithTime` | test/ConfidentialStaking.ts:41-44 | with a unit staked, advancing the clock alone raises the projected reward |
| `StakingLedger.StakeStep` | test/ConfidentialStaking.ts:22-26 | staking adds exactly `ONE` to staked, stores the reward settled up to `now`, sets the last update to `now`, keeps the stored reward within uint64 and staked in whole units, and fails only with `AccrualOverflow` |
| `StakingLedger.WithdrawStep` | test/ConfidentialStaking.ts:66-73 | below one unit the withdraw fails with `InsufficientStaked`; otherwise it removes exactly `ONE` after settling, or fails with `AccrualOverflow` |
| `StakingLedger.ClaimStep` | test/ConfidentialStaking.ts:52-54 | a claim pays out the whole reward settled up to `now` and resets it to zero; it fails with `AccrualOverflow` on overflow, or with `NothingToClaim` on a zero reward when the policy says so |
| `StakingLedger.Ledger.GetStaked` | test/ConfidentialStaking.ts:18-19 | an untouched account reads 0 staked; staked is always a whole number of units |
| `StakingLedger.Ledger.GetLastUpdate` | ui/src/config/contracts.ts:205-223 | an untouched account reads last update time 0 |
| `StakingLedger.Ledger.GetAccruedUSDT` | test/ConfidentialStaking.ts:20-26 | an untouched account reads 0; the read is exactly what a settlement at `now` would store, never below the stored reward, and equal to it at the instant of the last update |
| `StakingLedger.Ledger.constructor` | ui/src/config/contracts.ts:21-36 | a new ledger holds no positions and no events, and fixes the zero-claim policy |
| `StakingLedger.Ledger.StakeOne` | test/ConfidentialStaking.ts:22-24 | stores `StakeStep`'s position and logs `Staked`, or fails and changes nothing; staked grows by exactly `ONE`; no other account changes |
| `StakingLedger.Ledger.WithdrawOne` | test/ConfidentialStaking.ts:69-73 | stores `WithdrawStep`'s position and logs `Withdrawn`, or fails and changes nothing; with nothing staked it fails with `InsufficientStaked`; no other account changes |
| `StakingLedger.Ledger.Claim` | test/ConfidentialStaking.ts:52-54 | returns the reward the read showed at `now`, after which the read at `now` is 0; staked is untouched; no other account changes |
| `StakingLedger.StakeScenario` | test/ConfidentialStaking.ts:9-27 | before staking, staked and accrued read 0; after one stake, staked reads `ONE`, accrued reads 0 and the last update is the stake time |
| `StakingLedger.AccrueAndClaimScenario` | test/ConfidentialStaking.ts:29-55 | one hour after one stake the reward reads 416_666, inside the test's 416_666 ± 10; a later claim pays at least that and the reward then reads 0 |
| `StakingLedger.WithdrawScenario` | test/ConfidentialStaking.ts:57-74 | stake then withdraw brings staked back to 0; a second withdraw fails with `InsufficientStaked` and leaves the position unchanged |
| `UnitsFormat.DecimalString` | ui/src/components/StakingApp.tsx:9-11 | `toString` of a bigint gives a non-empty digit string that starts with '0' only for the value 0, which renders as "0" |
| `UnitsFormat.PadStart` | ui/src/components/StakingApp.tsx:10 | `padStart` keeps the string as its suffix and fills on the left with the fill character up to the width |
| `UnitsFormat.FormatUnits6` | ui/src/components/StakingApp.tsx:7-12 | an absent value renders "-"; a value renders as digits with exactly one '.', seven places from the end; the part before it reads `value / 1_000_000` without leading zeros and the part after it reads `value % 1_000_000` |
| `UnitsFormat.ParseDecimalString` | ui/src/components/StakingApp.tsx:9 | reading back the decimal rendering of a number gives the number |
| `UnitsFormat.DecimalStringLength` | ui/src/components/StakingApp.tsx:10 | a number below 10^k has at most k digits |
| `UnitsFormat.ParseWithLeadingZeros` | ui/src/components/StakingApp.tsx:10 | the zeros `padStart` adds do not change the value |
| `UnitsFormat.SliceTo` | ui/src/components/StakingApp.tsx:10 | `slice(0, end)` gives the prefix of the string of length `end`, or the whole string when it is shorter |
| `UnitsFormat.PaddedRemainder` | ui/src/components/StakingApp.tsx:10 | the remainder padded with '0' to six places is exactly six digits and still reads `value % 1_000_000` |
| `UnitsFormat.Fraction` | ui/src/components/StakingApp.tsx:10 | the fraction is always exactly six digits and reads `value % 1_000_000`, so `slice(0, 6)` never drops a digit |
| `UnitsFormat.FormatRoundTrip` | ui/src/components/StakingApp.tsx:7-12 | parsing the rendering gives back the value, absent or not |
| `UnitsFormat.FormatInjective` | ui/src/components/StakingApp.tsx:7-12 | two different balances never render alike |
| `ContractConfig.ContractAddress` | ui/src/config/contracts.ts:6-10 | each hard-coded address is "0x" and forty more characters, the first of them a non-zero hex digit |
| `ContractConfig.LowerChar` | ui/src/config/contracts.ts:13 | lower-casing an ASCII character never yields an upper-case letter, maps each upper-case letter to its lower-case letter, keeps hex digits hex, and yields '0' only from '0' and 'x' only from 'x' or 'X' |
| `ContractConfig.ToLower` | ui/src/config/contracts.ts:13 | `toLowerCase` on ASCII text keeps the length, lowers each character in place, differs from its input only in letter case, and leaves no upper-case letter |
| `ContractConfig.ZeroAddressDigits` | ui/src/config/contracts.ts:4 | the zero address is "0x" followed by forty '0' |
| `ContractConfig.IsConfiguredAddress` | ui/src/config/contracts.ts:12-14 | an address counts as configured if and only if it is not "0x" or "0X" followed by forty '0' |
| `ContractConfig.ConfiguredIgnoresCase` | ui/src/config/contracts.ts:13 | changing the case of an address's letters never changes whether it counts as configured |
| `ContractConfig.IsContractConfigured` | ui/src/config/contracts.ts:12-14 | a named contract counts as configured if and only if its hard-coded address is not a spelling of the zero address |
| `ContractConfig.AreCoreContractsConfigured` | ui/src/config/contracts.ts:16-18 | true if and only if none of staking, cETH and cUSDT has a zero address |
| `ContractConfig.IsStakingConfigured` | ui/src/config/contracts.ts:1559-1561 | true if and only if every core contract is configured, i.e. the same as `areCoreContractsConfigured()` |
| `ContractConfig.HardCodedAddressesAreConfigured` | ui/src/config/contracts.ts:6-18 | with the addresses hard-coded in the table, all three contracts are configured |
| `ContractConfig.DerivedConstants` | ui/src/config/contracts.ts:1554-1557 | the faucet amount is 10_000_000 base units and the approval duration is 604_800 s, seven days |

## Left out

- Confidential (FHE) mechanics are not modelled: encrypted handles, input proofs, KMS signatures, decryption and the gateway errors. Amounts are plain naturals.
- Token transfers are not modelled. The constructor's token-address parameters `cEthAddress` and `cUsdtAddress` (ui/src/config/contracts.ts:22-33) and the `cETH()` and `cUSDT()` views that return them are left out. So are the cETH debit on stake and the credit on withdraw, and so is the `InsufficientBalance` failure of a stake whose caller lacks cETH; the token contracts are not part of this model. The cUSDT payout of a claim is the amount `Claim` returns.
- StakingLedger.StakeStep: the staked balance is unbounded and only the stored reward is kept within uint64. The same holds for StakingLedger.Ledger.StakeOne, which stores that step's position.
- StakingLedger.Ledger.StakeOne: the staked balance is unbounded. Its uint64 limit is not modelled, because the contract's behaviour when it is reached is not visible. In practice the staked balance is bounded by the external cETH balance.
- The `OperatorNotAuthorized` error (ui/src/config/contracts.ts:52-56) is not modelled. It belongs to the cETH operator approval that the staking contract needs before it can move the caller's tokens, and token transfers are not modelled.
- Events are a ghost log. Nothing reads them.
- StakingLedger.Elapsed: the model has no special case for a last update time of 0, which the contract's settlement rule reads as "never staked" and gives zero elapsed time. A stake at block time 0 therefore starts accruing from time 0. On chain the block time is never 0, so a stored last update of 0 only ever belongs to a position that holds nothing, and its accrual is 0 either way.
- StakingLedger.Ledger.GetLastUpdate: the ABI files disagree on its result type (`uint64` versus `uint256`). The model uses one `nat`.
- Negative `bigint` inputs to `formatUnits6` are not modelled. The values come from `uint64` views, so the domain is the naturals.
- ContractConfig.ContractAddress: the contract states the prefix, the length and the first hex digit of each address, not that all forty characters are hex digits.
- ContractConfig.ToLower and ContractConfig.LowerChar: lower-casing is modelled for ASCII letters only; other characters are left as they are, so the length is always kept. JavaScript's `toLowerCase` can change the length of non-ASCII text ("İ" becomes two code units).
- ContractConfig.IsConfiguredAddress: lower-casing is modelled for ASCII letters only; other characters are left as they are. Full Unicode `toLowerCase` is not modelled. Contract addresses are ASCII hexadecimal.
- The React component body, the wagmi hooks and transaction submission in `StakingApp` are user interface and network I/O.
- `ui/src/config/staking.ts` (an environment read, a warning and a copy of the ABI) is not part of this model. Neither are the deployment script and the wagmi configuration.
- The ABI's `interestRatePerDay`, `protocolId`, `ONE_TOKEN`, `RATE_PER_DAY_USDT` and `SECONDS_PER_DAY` views are not modelled as operations. The last three are the constants `ONE`, `RATE_PER_DAY` and `SECONDS_PER_DAY`.
