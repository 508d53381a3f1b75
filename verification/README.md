# Fee vault accounting, modelled in Dafny

The fee vault is a Soroban contract. It takes deposits of one asset, supplies
them to a Blend lending pool and holds the pool's b-tokens on behalf of its
depositors, who hold vault shares. Before every change the vault is refreshed
to the pool's current b-token rate. The refresh moves the admin's fee out of the
depositors' b-tokens into a separate admin balance. There are three fee
policies:

- a take rate: a share of the interest earned;
- a capped APR: depositors earn at most the cap, and the fee is never negative;
- a fixed APR: depositors earn exactly the rate, so the fee is negative when the
  admin must top the vault up.

Beside the ledger the vault streams one reward token at a time to share
holders. It uses a lazily advanced reward-per-share index and per-user
accruals. A summary view estimates the depositors' APR from the pool's
interest-rate curve.

The model is split by source file:

- `wrappers.dfy`: `Option`, `Result` and `Outcome`, for the calls that abort.
- `errors.dfy`: the contract's error codes.
- `storage.dfy`: the stored records.
- `fixed_point.dfy`: the floor and ceiling fixed-point helpers, and lemmas about them.
- `validator.dfy`: the two input checks.
- `vault.dfy`:
  - the ledger record, its conversions, and the fee accrual of `update_rate`;
  - the four ledger mutations as outcome functions;
  - class `Ledger`, which holds the stored vault, the fee and the share balances;
  - a ghost invariant that the balances add up to the share total.
- `rewards.dfy`:
  - the reward index, the accrual rules and the reward configuration as functions;
  - class `Distributor`, which holds the active token, the per-token records and the per-user records;
  - module `RewardsProofs`, with the index and configuration properties.
- `summary.dfy`: utilisation, the three-segment borrow-rate curve, the supply APR, the fee adjustment and the assembled summary.
- `contract.dfy`: class `FeeVault`, with the entry points in their source order and the views, which compute on a refreshed copy and write nothing.

Each call receives the pool's b-token rate and the ledger time `now` as
parameters. Amounts are unbounded integers.

## Model

| member | source | states |
|---|---|---|
| Validator.RequirePositive | src/validator.rs:18-22 | aborts with the given error exactly when the amount is not positive |
| Validator.RequireValidFee | src/validator.rs:28-36 | passes exactly for rate ≤ 100% and type ≤ 2; an over-large rate reports `InvalidFeeRate` even when the type is also invalid; a bad type alone reports `InvalidFeeRateType` |
| Validator.FeeBoundaries | src/validator.rs:28-36 | rates 0 and exactly 100% are accepted for every valid type; 100% plus one unit gives code 104; type 3 gives code 109 |
| Vault.BTokensToSharesDown | src/vault.rs:28-35 | one for one while either total is zero; otherwise the floor of amount·shares/b-tokens |
| Vault.BTokensToSharesUp | src/vault.rs:38-45 | one for one while either total is zero; otherwise the ceiling of amount·shares/b-tokens |
| Vault.SharesToBTokensDown | src/vault.rs:48-52 | the floor of amount·b-tokens/shares |
| Vault.BTokensToUnderlyingDown | src/vault.rs:55-59 | the floor of amount·b_rate/10^12 |
| Vault.UnderlyingToBTokensDown | src/vault.rs:62-66 | the floor of amount·10^12/b_rate |
| Vault.UnderlyingToBTokensUp | src/vault.rs:69-73 | the ceiling of amount·10^12/b_rate |
| Vault.ConversionsBracket | src/vault.rs:28-73 | for shares and for b-tokens, rounding down ≤ rounding up ≤ rounding down + 1 |
| Vault.ConversionExamples | src/vault.rs:314-393 | the conversion tests' values: 2_0000000 down and 2_0000001 up; one for one at a zero total; 0_9999999 b-tokens for 2 shares |
| Vault.SharesValueBounds | src/vault.rs:48-52 | a holding of at most all shares is worth 0 to all of the depositors' b-tokens; all shares are worth exactly all of them |
| Vault.UnderlyingKeepsSign | src/vault.rs:55-59 | the underlying value is non-negative exactly when the b-token amount is |
| Vault.AdminBTokens | src/vault.rs:87-145 | the capped fee is never negative; an unknown type charges 0; an empty vault is charged 0 |
| Vault.TakeRateFeeBounds | src/vault.rs:90-101 | the take-rate fee lies in 0..total b-tokens, and is at most `rate` of the interest the b-tokens earned |
| Vault.TargetBRateAtLeast | src/vault.rs:113-125 | the target b-token rate is never below the current rate |
| Vault.BTokenDiffBounds | src/vault.rs:127-133 | the difference never exceeds the depositors' b-tokens, and is non-negative once the target is reached |
| Vault.AdminFeeBounds | src/vault.rs:87-145 | the fee never exceeds the depositors' b-tokens; it is negative only under a fixed rate |
| Vault.Refreshed | src/vault.rs:76-157 | sets the new rate and time; keeps the share total; preserves b-tokens + admin balance; changes nothing else when the rate did not rise; otherwise moves exactly the admin fee |
| Vault.UpdateRate | src/vault.rs:76-157 | the field-by-field update, including the skip of a zero fee, yields the refreshed vault |
| Vault.RefreshKeepsValid | src/vault.rs:147-157 | a refresh keeps totals non-negative and the rate positive; outside a fixed rate it never lowers the admin balance |
| Vault.RefreshIdempotent | src/vault.rs:76-157 | a second refresh at the same rate and time changes nothing |
| Vault.TakeRateExample | src/vault.rs:1040-1089 | 20% take on 1000 b-tokens: 16_6666666 as the rate goes 1.1→1.2, then 39_3333333 on to 1.5 |
| Vault.FixedRateExample | src/vault.rs:2050-2100 | a 3% fixed rate just missing its target makes the admin balance −1 (10 b-tokens) or −2 (100 b-tokens); depositors gain the same amount |
| Vault.CappedRateExample | src/vault.rs:1793-1842 | a 5% cap the vault does not reach over a day charges nothing |
| Vault.DepositOutcome | src/vault.rs:187-210 | `InvalidBTokensMinted` exactly when the amount is worth less than one b-token; after that, `InvalidSharesMinted` exactly when the vault holds shares and b-tokens and the minted b-tokens are worth less than one share; no other error; on success both amounts are positive, the b-tokens are the amount rounded down (bounded on both sides), and the shares are the b-tokens rounded down against the vault's ratio, or one for one in an empty vault |
| Vault.WithdrawOutcome | src/vault.rs:226-257 | the checks in source order: `InvalidBTokensBurnt` exactly for a non-positive amount; never `InvalidSharesBurnt`; then `InsufficientReserves` exactly when the rounded-up shares or b-tokens exceed the vault's totals; then `BalanceError` exactly when the shares exceed the user's; success exactly when all checks pass; the burnt b-tokens and shares are the amount and the b-tokens rounded up, bounded on both sides |
| Vault.AdminDepositOutcome | src/vault.rs:268-278 | `InvalidBTokensMinted` exactly when the amount is worth less than one b-token, and no other error; otherwise positive b-tokens, the amount rounded down, bounded on both sides |
| Vault.AdminWithdrawOutcome | src/vault.rs:292-305 | `InvalidBTokensBurnt` exactly for a non-positive amount; then `BalanceError` exactly when the rounded-up b-tokens exceed the admin balance; otherwise those b-tokens, at most the balance, bounded on both sides |
| Vault.NonPositiveAmountRefused | src/vault.rs:187-305 | a non-positive amount fails every mutation at its first check |
| Vault.SharesDownPositive | src/vault.rs:28-35 | positive b-tokens convert to at least one share, rounded down, exactly when the vault is empty or they are worth a whole share |
| Vault.SharesUpPositive | src/vault.rs:38-45 | positive b-tokens always convert to at least one share rounded up |
| Vault.DepositKeepsShareValue | src/vault.rs:199-205 | a deposit never lowers the b-tokens behind each share |
| Vault.WithdrawKeepsShareValue | src/vault.rs:238-251 | a withdrawal never lowers the b-tokens behind each remaining share |
| Vault.DepositCannotExtract | src/vault.rs:199-209 | freshly minted shares are worth at most the b-tokens deposited |
| Vault.ShareAtMostTotal | src/vault.rs:243-249 | with the balances accounted for, every user holds 0..total shares |
| Vault.Ledger.constructor | src/contract.rs:56-65 | zero shares, b-tokens and admin balance, the pool's rate and `now`, no balances |
| Vault.Ledger.GetVaultUpdated | src/vault.rs:168-172 | returns the refreshed vault and does not write it |
| Vault.Ledger.Deposit | src/vault.rs:187-210 | result as `DepositOutcome` on the refreshed vault; a failure changes nothing; a success adds the minted shares to the total and the user, adds the b-tokens, and touches the user's rewards with the pre-deposit totals |
| Vault.Ledger.Withdraw | src/vault.rs:226-257 | result as `WithdrawOutcome`; a success subtracts from the totals and the user, after touching rewards with the pre-withdrawal totals |
| Vault.Ledger.AdminDeposit | src/vault.rs:268-278 | on success only the admin balance changes beyond the refresh |
| Vault.Ledger.AdminWithdraw | src/vault.rs:292-305 | on success only the admin balance changes, and it stays ≥ 0 |
| Rewards.LoadUpdated | src/rewards.rs:152-188 | returns the record unchanged in the four skip cases; otherwise adds the floor of emission up to min(now, expiration) per share and sets `last_time` to now; eps and expiration are kept and the index never falls |
| Rewards.Accrued | src/rewards.rs:215-247 | stored accrual plus the floor of shares × index growth; nothing when the shares are zero or the index did not grow; a catch-up of shares × index for a user without a record |
| Rewards.CalculateEps | src/rewards.rs:266-272 | the truncated amount/period; refused with `InvalidRewardConfig` when zero or above `u64::MAX` |
| Rewards.EpsRange | src/rewards.rs:266-272 | an amount below one period truncates below 1; below (u64::MAX+1) periods it fits in 64 bits |
| Rewards.Distributor.constructor | src/contract.rs:35-66 | a new deployment has no reward token, no reward records and no user records |
| Rewards.Distributor.LoadUpdatedRewardData | src/rewards.rs:152-188 | None exactly for an unknown token; otherwise a brought-forward record whose further update changes nothing; reads only |
| Rewards.Distributor.UpdateRewardData | src/rewards.rs:193-201 | stores and returns the brought-forward record of a known token; changes nothing otherwise |
| Rewards.Distributor.SetUserRewards | src/rewards.rs:249-264 | stores the index; on a claim, zero accrual and returns the accrual; otherwise keeps it and returns 0 |
| Rewards.Distributor.UpdateUserRewards | src/rewards.rs:215-247 | the user record after synchronising to the index; returns the accrual only on a claim |
| Rewards.Distributor.UpdateRewards | src/rewards.rs:17-23 | brings the active token forward and synchronises the user without a claim |
| Rewards.Distributor.ClaimRewards | src/rewards.rs:36-58 | `NoRewardsConfigured`, with nothing changed, unless the active token has a record; otherwise returns the user's accrual and zeroes it |
| Rewards.Distributor.SetRewards | src/rewards.rs:69-140 | on a failure returns its error and leaves storage as it was; on success stores the planned map and makes the token active |
| RewardsProofs.LoadUpdatedIdempotent | src/rewards.rs:152-188 | a second update at the same time is a no-op |
| RewardsProofs.LoadUpdatedMonotoneInTime | src/rewards.rs:168-183 | a later update gives an index at least as large |
| RewardsProofs.LoadUpdatedSplit | src/rewards.rs:174-183 | an extra update in between costs at most one unit of index, never gains |
| RewardsProofs.ProportionalAccrual | src/rewards.rs:226-232 | k times the shares accrue k times the rewards, up to k − 1 units of rounding |
| RewardsProofs.SecondClaimPaysNothing | src/rewards.rs:257-259 | a claim straight after a claim pays 0 |
| RewardsProofs.SetRewardsKeepsIndices | src/rewards.rs:69-140 | a non-positive amount or an empty period is refused with `InvalidRewardConfig`; every failure is `InvalidRewardConfig`; a success stores a record starting now with the new expiration and a 64-bit eps; no index falls |
| RewardsProofs.SetRewardsBoostsActivePeriod | src/rewards.rs:91-114 | during an active period the plan succeeds exactly for the same token, an expiration no earlier than the current one, and a valid `calculate_eps` of the remaining emission plus the amount over the new period; it then stores exactly that eps with the index kept, and changes no other record |
| RewardsProofs.SetRewardsStartsNewPeriod | src/rewards.rs:69-139 | without an active period the plan succeeds exactly for a positive amount, a non-empty period and a valid `calculate_eps` of the amount over the period; it then stores exactly that eps, with the index carried over from the token's own record or 0 |
| RewardsProofs.IndexAndAccrualExamples | src/rewards.rs:286-337 | index 22222 → 8248888; accrual 3 → 7_4139996; catch-up 31_1094000; zero-share and no-growth cases |
| RewardsProofs.EpsExamples | src/rewards.rs:846-1295 | the emission-rate test values 0_0385802, the boost 0_0385802 + 0_0233333 and 0_0064300, and the refused zero and over-64-bit rates |
| Summary.Utilization | src/summary.rs:65-79 | 0 exactly when nothing is borrowed; 100% when liabilities reach supply; otherwise the ratio rounded up |
| Summary.BorrowRate | src/summary.rs:80-109 | the three-segment curve; never negative |
| Summary.FirstSegment | src/summary.rs:82-88 | the first segment climbs from the scaled base rate to the first kink |
| Summary.SecondSegment | src/summary.rs:89-97 | the second segment climbs from the first kink to the second |
| Summary.ThirdSegment | src/summary.rs:98-109 | beyond 95% the rate climbs from the second kink |
| Summary.FirstKinkBelowSecond | src/summary.rs:81-109 | the first kink is not above the second |
| Summary.BorrowRateMonotone | src/summary.rs:81-109 | the borrow rate never falls as utilisation rises |
| Summary.BorrowRateAtTarget | src/summary.rs:82-88 | the scaled base rate at 0; the first kink at the target utilisation |
| Summary.BorrowRateAtKinks | src/summary.rs:89-109 | the second kink at 95%; `r_three` above it at 100%, with no jump between segments |
| Summary.SupplyApr | src/summary.rs:111-114 | between 0 and borrow rate × utilisation, which is at most the borrow rate |
| Summary.FullUtilizationPaysBorrowRate | src/summary.rs:111-114 | at 100% utilisation with no backstop share, suppliers earn the borrow rate |
| Summary.EstimatedApr | src/summary.rs:116-143 | take rate: the complement share of the APR; cap: min(rate, APR); fixed: the rate when the admin has a balance or the APR beats it, otherwise as capped; unknown type: 0 |
| Summary.TakeRateKeepsShare | src/summary.rs:117-121 | a take-rate estimate lies between 0 and a non-negative APR |
| Summary.FixedWithoutBalanceIsCapped | src/summary.rs:130-141 | a fixed rate with no admin balance reports what a cap at that rate would |
| Summary.PoolEstimatedApr | src/summary.rs:65-143 | the estimate composed from the reserve; under a take rate or a cap it lies in 0..borrow rate |
| Summary.UtilizationExamples | src/summary.rs:175-262 | the test reserves sit at 85%, 70%, 96% and 80% |
| Summary.BorrowRateAt85 | src/summary.rs:175-262 | the test curve gives 0_3250003 at 85% |
| Summary.BorrowRateAt70 | src/summary.rs:336-408 | the test curve gives 0_0618750 at 70% |
| Summary.BorrowRateAt96 | src/summary.rs:409-481 | the test curve gives 1_1575000 at 96% |
| Summary.BorrowRateAt80 | src/summary.rs:482-554 | the test curve gives 0_0900000 at 80% |
| Summary.TakeRateAprExample | src/summary.rs:175-335 | 10% take with 10% backstop gives 0_2237625; no take and no backstop gives 0_2762502 |
| Summary.CappedBelowAprExample | src/summary.rs:336-408 | a 4% cap not reached gives 0_0346500 |
| Summary.CappedAboveAprExample | src/summary.rs:409-481 | a 15% cap reached gives 0_1500000 |
| Summary.FixedAprExample | src/summary.rs:482-627 | a 7% fixed rate gives 0_0700000 with an admin balance and 0_0576000 without one |
| Summary.SummaryRewardData | src/summary.rs:53-58 | all zeros without an active token or its record; otherwise the brought-forward record |
| Summary.Load | src/summary.rs:44-160 | the fee, the refreshed vault, the pool estimate on the refreshed admin balance, and the active token's brought-forward record |
| Contract.FeeVault.Init | src/contract.rs:50-65 | the stored fee, the empty vault at the pool's rate and `now`, and no rewards |
| Contract.FeeVault.Deploy | src/contract.rs:35-66 | fails exactly for an invalid fee, with `require_valid_fee`'s error; otherwise deploys the initial state |
| Contract.FeeVault.GetShares | src/contract.rs:77-79 | 0 for an unknown user; never above the share total |
| Contract.FeeVault.GetBTokens | src/contract.rs:88-98 | 0 without shares; otherwise the shares valued down on the refreshed vault, within 0..its b-tokens; the whole supply is worth all of them; writes nothing |
| Contract.FeeVault.GetUnderlyingTokens | src/contract.rs:107-118 | 0 without shares; otherwise the b-token value in underlying, within 0..the underlying of all b-tokens; writes nothing |
| Contract.FeeVault.GetUnderlyingAdminBalance | src/contract.rs:139-144 | the refreshed admin balance in underlying, negative exactly when the admin owes the vault; writes nothing |
| Contract.FeeVault.GetVault | src/contract.rs:158-162 | the refreshed vault with the same share total and b-tokens + admin balance; writes nothing |
| Contract.FeeVault.GetRewardData | src/contract.rs:203-206 | None exactly for an unknown token; otherwise the record brought forward with the stored share total, eps and expiration kept |
| Contract.FeeVault.GetVaultSummary | src/contract.rs:216-218 | exactly `Summary.Load` of the stored state: the refreshed vault, the fee, the pool estimate on the refreshed admin balance (non-negative outside a fixed rate), and the active token's record brought forward |
| Contract.FeeVault.SetFee | src/contract.rs:236-252 | the result is `require_valid_fee`'s; a valid fee is installed only after the vault is stored refreshed under the old fee; an invalid one changes nothing |
| Contract.SetFeeRefreshesUnderOldFee | src/tests/test_entrypoints.rs:347-417 | a doubled rate under a 10% take gives the admin 50 b-tokens and lifts 1200 shares from 1000 to 1900 underlying; under the new 100% fee the admin would have taken 500 |
| Contract.FeeVault.AdminDeposit | src/contract.rs:323-336 | `InvalidAmount` with nothing changed for amount ≤ 0; otherwise the ledger's admin deposit |
| Contract.FeeVault.AdminWithdraw | src/contract.rs:351-364 | `InvalidAmount` for amount ≤ 0; otherwise the ledger's admin withdrawal; the balance stays ≥ 0 |
| Contract.FeeVault.SetRewards | src/contract.rs:378-394 | the distributor's `set_rewards` with the stored, unrefreshed share total |
| Contract.FeeVault.Deposit | src/contract.rs:431-455 | `InvalidAmount` with nothing changed for amount ≤ 0; otherwise `deposit`'s error with nothing changed, or the minted shares, with the ledger updated as `deposit` and the user's rewards touched with the pre-deposit totals |
| Contract.FeeVault.Withdraw | src/contract.rs:472-496 | `InvalidAmount` with nothing changed for amount ≤ 0; otherwise `withdraw`'s error with nothing changed, or the burnt shares, at most the user's, with the ledger updated as `withdraw` and the user's rewards touched with the pre-withdrawal totals |
| Contract.FeeVault.ClaimRewards | src/contract.rs:510-521 | the distributor's claim with the stored share total and the user's stored balance |

## Left out

- Token transfers and pool calls are not modelled: the pool's `supply` and `withdraw`, the reward token transfers, and `claim_emissions`. The pool's b-token rate is a parameter.
- `require_auth`, the signer check, `set_admin`, `set_signer` and `upgrade_contract` are not modelled: they are authorisation, not accounting.
- `get_config`, `get_fee`, `get_admin` and `get_signer` are plain storage reads and are not modelled.
- Events are not modelled. Storage TTL extension is not modelled.
- `get_rewards` is not modelled: its argument order differs from the reward storage it reads.
- Summary data gathering (the pool, asset, admin and signer fields, and the reserve and pool-config reads) is not modelled; the reserve and the backstop rate are inputs.
- `contract::withdraw` destructures three values from `vault::withdraw`, which returns two. The model follows `vault::withdraw`. `Contract.FeeVault.Withdraw` returns the burnt shares, and it transfers nothing.
- `claim_rewards`'s `reward_token` argument only labels the event. It is not a parameter of `Contract.FeeVault.ClaimRewards`.
- Integer widths are not modelled. Amounts are unbounded. The 128-bit overflow aborts of the fixed-point helpers are not modelled. The 64-bit subtractions that would abort become preconditions: a ledger time before the vault's last update, an expiration before now, a reward record updated after now. The explicit `u64::MAX` ceiling on the emission rate is modelled.
- Vault.Ledger.Deposit and Vault.Ledger.Withdraw check first and then touch rewards. The source touches rewards first and lets a failed check abort. The host discards all writes of an aborted call, so the stored outcome is the same.
- Rewards.Distributor.SetRewards restores the reward map on its failure paths after the first write, standing for the host's discard.
- A zero b-token rate is not modelled: the source divides by the pool's b-token rate and aborts when it is zero, and the model requires it to be positive (`VaultData.Valid` and the `poolRate` parameters). A zero target utilisation is not modelled either: `fixed_div_ceil` by it aborts, and `ReserveConfig.Valid` requires it to be positive. Both are invariants the pool keeps, so these abort paths are dropped.
- Summary.SupplyApr requires a backstop take rate of at most 100% (`0 <= backstopRate <= SCALAR_7`), a range the pool keeps. The source's `u32` would accept a larger rate and report a negative supply APR; the bound `0 <= r` holds only within this range.
- Summary.PoolEstimatedApr and Summary.Load require that backstop range and non-negative reserve supplies, rates and interest-rate modifier (`ReserveData.Valid`), although the source's fields are `i128`. The pool keeps these ranges. `0 <= r <= BorrowRate` outside a fixed rate holds only within them.
- Contract.FeeVault.GetVaultSummary takes the same pool ranges as `Summary.Load`; its non-negative estimate outside a fixed rate holds only within them.
- The summary tests compare the APR within ±0_0001000. The example lemmas state the exact integers the formula yields.
