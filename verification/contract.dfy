/** The contract's entry points (contract.rs): input checks, then the vault
 *  ledger and the reward distributor. The pool's b-token rate and the ledger
 *  time are parameters of each call; token transfers, authorisation and events
 *  are not modelled. */
module Contract {
  import opened Wrappers
  import opened Errors
  import opened Storage
  import opened FixedPoint
  import opened Validator
  import opened Vault
  import Rewards
  import Summary

  /** The deployed fee vault: its ledger and its reward storage. */
  class FeeVault {
    const ledger: Ledger
    const dist: Rewards.Distributor

    /** The ledger keeps its invariant between calls. */
    ghost predicate Valid()
      reads this, ledger
    {
      ledger.Valid()
    }

    /** No stored timestamp lies after the ledger time `now`. */
    predicate Current(now: nat)
      reads this, ledger, dist
    {
      ledger.vault.lastUpdateTimestamp <= now && dist.NotAhead(now)
    }

    /** The state `__constructor` stores once the fee is accepted. */
    constructor Init(fee: Fee, poolRate: int, now: nat)
      requires ValidFee(fee) && poolRate > 0
      ensures fresh(ledger) && fresh(dist)
      ensures Valid() && Current(now)
      ensures ledger.fee == fee && ledger.vault == VaultData(now, poolRate, 0, 0, 0) && ledger.shares == map[]
      ensures dist.rewardToken == None && dist.rewardData == map[] && dist.userRewards == map[]
    {
      ledger := new Ledger(fee, poolRate, now);
      dist := new Rewards.Distributor();
    }

    /** `__constructor`: refuses an invalid fee, otherwise deploys an empty
     *  vault at the pool's current b-token rate. */
    static method Deploy(rateType: nat, rate: nat, poolRate: int, now: nat) returns (r: Result<FeeVault, Error>)
      requires poolRate > 0
      ensures r.Failure? <==> !ValidFee(Fee(rateType, rate))
      ensures r.Failure? ==> Fail(r.error) == RequireValidFee(Fee(rateType, rate))
      ensures r.Success? ==>
        && fresh(r.value) && fresh(r.value.ledger) && fresh(r.value.dist)
        && r.value.Valid() && r.value.Current(now)
        && r.value.ledger.fee == Fee(rateType, rate)
        && r.value.ledger.vault == VaultData(now, poolRate, 0, 0, 0) && r.value.ledger.shares == map[]
        && r.value.dist.rewardToken == None && r.value.dist.rewardData == map[]
    {
      var fee := Fee(rateType, rate);
      var check := RequireValidFee(fee);
      if check.Fail? {
        return Failure(check.error);
      }
      var vault := new FeeVault.Init(fee, poolRate, now);
      return Success(vault);
    }

    // -------------------------------------------------------------------
    // Views: each reads storage and never writes it

    /** `get_shares`: the user's share balance, 0 for a user never seen. */
    function GetShares(user: Address): (r: int)
      reads this, ledger
      requires Valid()
      ensures 0 <= r <= ledger.vault.totalShares
      ensures user !in ledger.shares ==> r == 0
    {
      ShareAtMostTotal(ledger.shares, ledger.vault.totalShares, user);
      SharesOf(ledger.shares, user)
    }

    /** `get_b_tokens`: the user's shares valued in b-tokens on the refreshed
     *  vault, rounded down; never more than the depositors' b-tokens. */
    method GetBTokens(user: Address, poolRate: int, now: nat) returns (r: int)
      requires Valid() && Current(now) && poolRate > 0
      ensures var v := Refreshed(ledger.vault, ledger.fee, poolRate, now);
        var shares := GetShares(user);
        && v.Valid() && shares <= v.totalShares
        && (shares == 0 ==> r == 0)
        && (shares > 0 ==> r == SharesToBTokensDown(v, shares))
        && 0 <= r <= v.totalBTokens
        && (0 < shares == v.totalShares ==> r == v.totalBTokens)
    {
      var shares := GetShares(user);
      if shares > 0 {
        var v := ledger.GetVaultUpdated(poolRate, now);
        r := SharesToBTokensDown(v, shares);
        SharesValueBounds(v, shares);
      } else {
        RefreshKeepsValid(ledger.vault, ledger.fee, poolRate, now);
        r := 0;
      }
    }

    /** `get_underlying_tokens`: the user's b-tokens, as `get_b_tokens` values
     *  them, converted to underlying at the refreshed rate, rounded down. */
    method GetUnderlyingTokens(user: Address, poolRate: int, now: nat) returns (r: int)
      requires Valid() && Current(now) && poolRate > 0
      ensures var v := Refreshed(ledger.vault, ledger.fee, poolRate, now);
        var shares := GetShares(user);
        && v.Valid() && shares <= v.totalShares
        && (shares == 0 ==> r == 0)
        && (shares > 0 ==> r == BTokensToUnderlyingDown(v, SharesToBTokensDown(v, shares)))
        && 0 <= r <= BTokensToUnderlyingDown(v, v.totalBTokens)
    {
      var shares := GetShares(user);
      var v := ledger.GetVaultUpdated(poolRate, now);
      if shares > 0 {
        var bTokens := SharesToBTokensDown(v, shares);
        r := BTokensToUnderlyingDown(v, bTokens);
        SharesValueBounds(v, shares);
        UnderlyingKeepsSign(v, bTokens);
        MulLeft(v.bRate, bTokens, v.totalBTokens);
        MulFloorMonotone(bTokens, v.totalBTokens, v.bRate, SCALAR_12);
      } else {
        r := 0;
        UnderlyingKeepsSign(v, v.totalBTokens);
      }
    }

    /** `get_underlying_admin_balance`: the admin's b-tokens on the refreshed
     *  vault in underlying, rounded down; negative exactly when the admin owes
     *  the vault. */
    method GetUnderlyingAdminBalance(poolRate: int, now: nat) returns (r: int)
      requires Valid() && Current(now) && poolRate > 0
      ensures var v := Refreshed(ledger.vault, ledger.fee, poolRate, now);
        && r == BTokensToUnderlyingDown(v, v.adminBalance)
        && (r >= 0 <==> v.adminBalance >= 0)
    {
      var v := ledger.GetVaultUpdated(poolRate, now);
      r := BTokensToUnderlyingDown(v, v.adminBalance);
      UnderlyingKeepsSign(v, v.adminBalance);
    }

    /** `get_vault`: the stored vault refreshed to the pool's rate, without
     *  writing it back. */
    method GetVault(poolRate: int, now: nat) returns (r: VaultData)
      requires Valid() && Current(now) && poolRate > 0
      ensures r == Refreshed(ledger.vault, ledger.fee, poolRate, now) && r.Valid()
      ensures r.totalShares == ledger.vault.totalShares
      ensures r.totalBTokens + r.adminBalance == ledger.vault.totalBTokens + ledger.vault.adminBalance
    {
      r := ledger.GetVaultUpdated(poolRate, now);
    }

    /** `get_reward_token`. */
    function GetRewardToken(): Option<Address>
      reads this, dist
    {
      dist.rewardToken
    }

    /** `get_reward_data`: the record for `token` brought forward with the
     *  stored (not refreshed) share total, or `None` for an unknown token. */
    method GetRewardData(token: Address, now: nat) returns (r: Option<RewardData>)
      requires Valid() && Current(now)
      ensures r.None? <==> token !in dist.rewardData
      ensures r.Some? ==>
        && r.value.eps == dist.rewardData[token].eps
        && r.value.expiration == dist.rewardData[token].expiration
        && r.value.index >= dist.rewardData[token].index && r.value.lastTime <= now
      ensures r.Some? ==> r == dist.LoadUpdatedRewardData(token, ledger.vault.totalShares, now)
    {
      r := dist.LoadUpdatedRewardData(token, ledger.vault.totalShares, now);
    }

    /** `get_vault_summary`: the summary of the stored state, with the pool's
     *  reserve and backstop take rate as parameters. */
    method GetVaultSummary(poolRate: int, config: Summary.ReserveConfig, reserve: Summary.ReserveData,
                           backstopRate: int, now: nat) returns (r: Summary.VaultSummary)
      requires Valid() && Current(now) && poolRate > 0
      requires config.Valid() && reserve.Valid() && 0 <= backstopRate <= SCALAR_7
      ensures r == Summary.Load(ledger.fee, ledger.vault, poolRate, dist.rewardToken, dist.rewardData,
                                config, reserve, backstopRate, now)
      ensures r.vault == Refreshed(ledger.vault, ledger.fee, poolRate, now) && r.vault.Valid()
      ensures r.fee == ledger.fee && r.rewardToken == dist.rewardToken
      ensures r.estApr == Summary.PoolEstimatedApr(ledger.fee, r.vault.adminBalance, config, reserve, backstopRate)
      ensures ledger.fee.rateType != 2 ==> 0 <= r.estApr
      ensures r.rewardData == Summary.SummaryRewardData(dist.rewardToken, dist.rewardData, ledger.vault.totalShares, now)
    {
      r := Summary.Load(ledger.fee, ledger.vault, poolRate, dist.rewardToken, dist.rewardData,
                        config, reserve, backstopRate, now);
    }

    // -------------------------------------------------------------------
    // Admin entry points

    /** `set_fee`: a valid fee is installed only after the vault has been
     *  refreshed and stored under the old fee, so the new fee never applies to
     *  interest earned before the call. */
    method SetFee(rateType: nat, rate: nat, poolRate: int, now: nat) returns (r: Outcome<Error>)
      requires Valid() && Current(now) && poolRate > 0
      modifies ledger
      ensures Valid() && Current(now) && ledger.shares == old(ledger.shares)
      ensures r == RequireValidFee(Fee(rateType, rate))
      ensures r.Fail? ==> ledger.vault == old(ledger.vault) && ledger.fee == old(ledger.fee)
      ensures r.Pass? ==>
        && ledger.vault == Refreshed(old(ledger.vault), old(ledger.fee), poolRate, now)
        && ledger.fee == Fee(rateType, rate)
    {
      var fee := Fee(rateType, rate);
      r := RequireValidFee(fee);
      if r.Fail? {
        return;
      }
      var v := ledger.GetVaultUpdated(poolRate, now);
      ledger.vault := v;
      ledger.fee := fee;
    }

    /** `admin_deposit`: a non-positive amount is refused first, then the
     *  admin is credited on the refreshed vault. Returns the b-tokens minted. */
    method AdminDeposit(amount: int, poolRate: int, now: nat) returns (r: Result<int, Error>)
      requires Valid() && Current(now) && poolRate > 0
      modifies ledger
      ensures Valid() && Current(now)
      ensures ledger.fee == old(ledger.fee) && ledger.shares == old(ledger.shares)
      ensures amount <= 0 ==> r == Failure(InvalidAmount) && ledger.vault == old(ledger.vault)
      ensures amount > 0 ==>
        var v := Refreshed(old(ledger.vault), old(ledger.fee), poolRate, now);
        && v.Valid()
        && r == AdminDepositOutcome(v, amount)
        && (r.Failure? ==> ledger.vault == old(ledger.vault))
        && (r.Success? ==> ledger.vault == v.(adminBalance := v.adminBalance + r.value))
    {
      var check := RequirePositive(amount, InvalidAmount);
      if check.Fail? {
        return Failure(check.error);
      }
      r := ledger.AdminDeposit(amount, poolRate, now);
    }

    /** `admin_withdraw`: a non-positive amount is refused first, then the
     *  admin is debited on the refreshed vault, never below zero. Returns the
     *  b-tokens burnt. */
    method AdminWithdraw(amount: int, poolRate: int, now: nat) returns (r: Result<int, Error>)
      requires Valid() && Current(now) && poolRate > 0
      modifies ledger
      ensures Valid() && Current(now)
      ensures ledger.fee == old(ledger.fee) && ledger.shares == old(ledger.shares)
      ensures amount <= 0 ==> r == Failure(InvalidAmount) && ledger.vault == old(ledger.vault)
      ensures amount > 0 ==>
        var v := Refreshed(old(ledger.vault), old(ledger.fee), poolRate, now);
        && v.Valid()
        && r == AdminWithdrawOutcome(v, amount)
        && (r.Failure? ==> ledger.vault == old(ledger.vault))
        && (r.Success? ==> ledger.vault == v.(adminBalance := v.adminBalance - r.value) && ledger.vault.adminBalance >= 0)
    {
      var check := RequirePositive(amount, InvalidAmount);
      if check.Fail? {
        return Failure(check.error);
      }
      r := ledger.AdminWithdraw(amount, poolRate, now);
    }

    /** `set_rewards`: configures the emission of `token`, with the stored
     *  (not refreshed) share total. */
    method SetRewards(token: Address, amount: int, expiration: nat, now: nat) returns (r: Outcome<Error>)
      requires Valid() && Current(now) && expiration >= now
      modifies dist
      ensures Valid() && Current(now) && dist.userRewards == old(dist.userRewards)
      ensures var plan := Rewards.SetRewardsPlan(old(dist.rewardToken), old(dist.rewardData),
                                                 ledger.vault.totalShares, token, amount, expiration, now);
        && (plan.Failure? ==> r == Fail(plan.error) && dist.rewardData == old(dist.rewardData)
                              && dist.rewardToken == old(dist.rewardToken))
        && (plan.Success? ==> r == Pass && dist.rewardData == plan.value && dist.rewardToken == Some(token))
    {
      r := dist.SetRewards(ledger.vault.totalShares, token, amount, expiration, now);
    }

    // -------------------------------------------------------------------
    // User entry points

    /** `deposit`: a non-positive amount is refused first; otherwise shares
     *  are minted to `user` on the refreshed vault. Returns the new shares. */
    method Deposit(user: Address, amount: int, poolRate: int, now: nat) returns (r: Result<int, Error>)
      requires Valid() && Current(now) && poolRate > 0
      modifies ledger, dist
      ensures Valid() && Current(now)
      ensures ledger.fee == old(ledger.fee) && dist.rewardToken == old(dist.rewardToken)
      ensures amount <= 0 ==>
        && r == Failure(InvalidAmount)
        && ledger.vault == old(ledger.vault) && ledger.shares == old(ledger.shares)
        && dist.rewardData == old(dist.rewardData) && dist.userRewards == old(dist.userRewards)
      ensures amount > 0 ==>
        var v := Refreshed(old(ledger.vault), old(ledger.fee), poolRate, now);
        var userShares := SharesOf(old(ledger.shares), user);
        && v.Valid()
        && var outcome := DepositOutcome(v, amount);
        && (outcome.Failure? ==>
              && r == Failure(outcome.error)
              && ledger.vault == old(ledger.vault) && ledger.shares == old(ledger.shares)
              && dist.rewardData == old(dist.rewardData) && dist.userRewards == old(dist.userRewards))
        && (outcome.Success? ==>
              && r == Success(outcome.value.1)
              && ledger.vault == v.(totalShares := v.totalShares + outcome.value.1,
                                    totalBTokens := v.totalBTokens + outcome.value.0)
              && ledger.shares == old(ledger.shares)[user := userShares + outcome.value.1]
              && dist.rewardData == Rewards.TouchedData(old(dist.rewardToken), old(dist.rewardData), v.totalShares, now)
              && dist.userRewards == Rewards.TouchedUsers(old(dist.rewardToken), old(dist.rewardData),
                                                          old(dist.userRewards), v.totalShares, user, userShares, now))
    {
      var check := RequirePositive(amount, InvalidAmount);
      if check.Fail? {
        return Failure(check.error);
      }
      var minted := ledger.Deposit(dist, user, amount, poolRate, now);
      if minted.Failure? {
        return Failure(minted.error);
      }
      r := Success(minted.value.1);
    }

    /** `withdraw`: a non-positive amount is refused first; otherwise the
     *  user's shares are burnt on the refreshed vault. Returns the burnt shares. */
    method Withdraw(user: Address, amount: int, poolRate: int, now: nat) returns (r: Result<int, Error>)
      requires Valid() && Current(now) && poolRate > 0
      modifies ledger, dist
      ensures Valid() && Current(now)
      ensures ledger.fee == old(ledger.fee) && dist.rewardToken == old(dist.rewardToken)
      ensures amount <= 0 ==>
        && r == Failure(InvalidAmount)
        && ledger.vault == old(ledger.vault) && ledger.shares == old(ledger.shares)
        && dist.rewardData == old(dist.rewardData) && dist.userRewards == old(dist.userRewards)
      ensures amount > 0 ==>
        var v := Refreshed(old(ledger.vault), old(ledger.fee), poolRate, now);
        var userShares := SharesOf(old(ledger.shares), user);
        && v.Valid()
        && var outcome := WithdrawOutcome(v, userShares, amount);
        && (outcome.Failure? ==>
              && r == Failure(outcome.error)
              && ledger.vault == old(ledger.vault) && ledger.shares == old(ledger.shares)
              && dist.rewardData == old(dist.rewardData) && dist.userRewards == old(dist.userRewards))
        && (outcome.Success? ==>
              && r == Success(outcome.value.1)
              && 0 < outcome.value.1 <= userShares
              && ledger.vault == v.(totalShares := v.totalShares - outcome.value.1,
                                    totalBTokens := v.totalBTokens - outcome.value.0)
              && ledger.shares == old(ledger.shares)[user := userShares - outcome.value.1]
              && dist.rewardData == Rewards.TouchedData(old(dist.rewardToken), old(dist.rewardData), v.totalShares, now)
              && dist.userRewards == Rewards.TouchedUsers(old(dist.rewardToken), old(dist.rewardData),
                                                          old(dist.userRewards), v.totalShares, user, userShares, now))
    {
      var check := RequirePositive(amount, InvalidAmount);
      if check.Fail? {
        return Failure(check.error);
      }
      var burnt := ledger.Withdraw(dist, user, amount, poolRate, now);
      if burnt.Failure? {
        return Failure(burnt.error);
      }
      r := Success(burnt.value.1);
    }

    /** `claim_rewards`: pays `user` everything accrued for the active reward
     *  token, measured with the stored share total and the user's shares. */
    method ClaimRewards(user: Address, now: nat) returns (r: Result<int, Error>)
      requires Valid() && Current(now)
      modifies dist
      ensures Valid() && Current(now) && dist.rewardToken == old(dist.rewardToken)
      ensures old(dist.rewardToken).None? || old(dist.rewardToken).value !in old(dist.rewardData) ==>
        r == Failure(NoRewardsConfigured)
        && dist.rewardData == old(dist.rewardData) && dist.userRewards == old(dist.userRewards)
      ensures old(dist.rewardToken).Some? && old(dist.rewardToken).value in old(dist.rewardData) ==>
        var t := old(dist.rewardToken).value;
        var rd := Rewards.LoadUpdated(old(dist.rewardData)[t], ledger.vault.totalShares, now);
        && r == Success(Rewards.Accrued(old(Rewards.StoredUser(dist.userRewards, t, user)), rd.index,
                                        SharesOf(ledger.shares, user)))
        && dist.rewardData == old(dist.rewardData)[t := rd]
        && dist.userRewards == old(dist.userRewards)[(t, user) := UserRewards(rd.index, 0)]
    {
      r := dist.ClaimRewards(ledger.vault.totalShares, user, SharesOf(ledger.shares, user), now);
    }
  }

  /** The fee-update scenario of the entry-point tests: 1200 shares over 1000
   *  b-tokens, a 10% take rate, and the pool's b-token rate doubling before
   *  `set_fee`. The refresh under the old fee gives the admin 50 b-tokens and
   *  lifts the holder's underlying value from 1000 to 1900; had the new 100%
   *  fee applied retroactively, the admin would have taken all 500 b-tokens of
   *  interest. */
  lemma SetFeeRefreshesUnderOldFee()
    ensures var stored := VaultData(0, 1_000_000_000_000, 1200_0000000, 1000_0000000, 0);
      var refreshed := Refreshed(stored, Fee(0, 0_1000000), 2_000_000_000_000, 5);
      && refreshed == VaultData(5, 2_000_000_000_000, 1200_0000000, 950_0000000, 50_0000000)
      && BTokensToUnderlyingDown(stored, SharesToBTokensDown(stored, 1200_0000000)) == 1000_0000000
      && BTokensToUnderlyingDown(refreshed, SharesToBTokensDown(refreshed, 1200_0000000)) == 1900_0000000
      && Refreshed(stored, Fee(0, 1_0000000), 2_000_000_000_000, 5).adminBalance == 500_0000000
  {
    var stored := VaultData(0, 1_000_000_000_000, 1200_0000000, 1000_0000000, 0);
    assert TakeRateFee(1000_0000000, 1_000_000_000_000, 2_000_000_000_000, 0_1000000) == 50_0000000;
    assert TakeRateFee(1000_0000000, 1_000_000_000_000, 2_000_000_000_000, 1_0000000) == 500_0000000;
  }
}
