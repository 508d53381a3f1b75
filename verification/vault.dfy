/** The vault ledger (vault.rs): shares issued against b-tokens held in the
 *  lending pool, the admin's b-token balance, and the fee taken as the pool's
 *  b-token rate grows. */
module Vault {
  import opened Wrappers
  import opened Errors
  import opened Storage
  import opened FixedPoint
  import opened Validator
  import Rewards

  /** `VaultData`: the stored ledger. `totalBTokens` excludes the admin's balance. */
  datatype VaultData = VaultData(
    lastUpdateTimestamp: nat,
    bRate: int,
    totalShares: int,
    totalBTokens: int,
    adminBalance: int)
  {
    /** Non-negative totals and a positive b-token rate. */
    predicate Valid()
    {
      totalShares >= 0 && totalBTokens >= 0 && bRate > 0
    }
  }

  // ---------------------------------------------------------------------
  // Conversions

  /** b-tokens to shares, rounded down; one for one while either total is zero. */
  function BTokensToSharesDown(v: VaultData, amount: int): (r: int)
    requires v.totalBTokens >= 0
    ensures v.totalShares == 0 || v.totalBTokens == 0 ==> r == amount
    ensures v.totalShares != 0 && v.totalBTokens != 0 ==>
      r * v.totalBTokens <= amount * v.totalShares < r * v.totalBTokens + v.totalBTokens
  {
    if v.totalShares == 0 || v.totalBTokens == 0 then amount
    else MulFloor(amount, v.totalShares, v.totalBTokens)
  }

  /** b-tokens to shares, rounded up; one for one while either total is zero. */
  function BTokensToSharesUp(v: VaultData, amount: int): (r: int)
    requires v.totalBTokens >= 0
    ensures v.totalShares == 0 || v.totalBTokens == 0 ==> r == amount
    ensures v.totalShares != 0 && v.totalBTokens != 0 ==>
      r * v.totalBTokens - v.totalBTokens < amount * v.totalShares <= r * v.totalBTokens
  {
    if v.totalShares == 0 || v.totalBTokens == 0 then amount
    else MulCeil(amount, v.totalShares, v.totalBTokens)
  }

  /** Shares to b-tokens, rounded down. */
  function SharesToBTokensDown(v: VaultData, amount: int): (r: int)
    requires v.totalShares > 0
    ensures r * v.totalShares <= amount * v.totalBTokens < r * v.totalShares + v.totalShares
  {
    DivFloor(amount, v.totalShares, v.totalBTokens)
  }

  /** b-tokens to underlying tokens at the vault's b-token rate, rounded down. */
  function BTokensToUnderlyingDown(v: VaultData, amount: int): (r: int)
    ensures r * SCALAR_12 <= amount * v.bRate < r * SCALAR_12 + SCALAR_12
  {
    MulFloor(amount, v.bRate, SCALAR_12)
  }

  /** Underlying tokens to b-tokens, rounded down. */
  function UnderlyingToBTokensDown(v: VaultData, amount: int): (r: int)
    requires v.bRate > 0
    ensures r * v.bRate <= amount * SCALAR_12 < r * v.bRate + v.bRate
  {
    DivFloor(amount, v.bRate, SCALAR_12)
  }

  /** Underlying tokens to b-tokens, rounded up. */
  function UnderlyingToBTokensUp(v: VaultData, amount: int): (r: int)
    requires v.bRate > 0
    ensures r * v.bRate - v.bRate < amount * SCALAR_12 <= r * v.bRate
  {
    DivCeil(amount, v.bRate, SCALAR_12)
  }

  // ---------------------------------------------------------------------
  // Fee accrual

  /** Take rate: the `rate` share of the interest the vault's b-tokens earned
   *  while the b-token rate rose from `oldRate` to `newRate`, in b-tokens. */
  function TakeRateFee(totalBTokens: int, oldRate: int, newRate: int, rate: int): int
    requires newRate > 0
  {
    var interest := MulFloor(totalBTokens, newRate - oldRate, SCALAR_12);
    DivFloor(MulFloor(interest, rate, SCALAR_7), newRate, SCALAR_12)
  }

  /** The b-token rate the vault would have reached earning the target APR
   *  `rate` (7 decimals) for `elapsed` seconds, rounded up. */
  function TargetBRate(bRate: int, rate: int, elapsed: int): int
  {
    var targetGrowthRate := TruncDiv(100_000 * rate * elapsed, SECONDS_PER_YEAR) + SCALAR_12;
    MulCeil(bRate, targetGrowthRate, SCALAR_12)
  }

  /** The b-tokens the vault holds beyond (or, negative, short of) what the
   *  target b-token rate would give it, rounded down. */
  function BTokenDiff(totalBTokens: int, newRate: int, targetBRate: int): int
    requires newRate > 0
  {
    DivFloor(MulFloor(totalBTokens, newRate - targetBRate, SCALAR_12), newRate, SCALAR_12)
  }

  /** The admin's fee, in b-tokens, for a rise of the b-token rate to `newRate`
   *  at time `now`, by fee type: take rate, capped APR (never negative), fixed
   *  APR (negative when the admin must top the vault up), or nothing for an
   *  unknown type. */
  function AdminBTokens(v: VaultData, fee: Fee, newRate: int, now: nat): (r: int)
    requires 0 < newRate && v.lastUpdateTimestamp <= now
    ensures fee.rateType == 1 ==> r >= 0
    ensures fee.rateType > 2 ==> r == 0
    ensures v.totalBTokens == 0 ==> r == 0
  {
    if fee.rateType == 0 then
      TakeRateFee(v.totalBTokens, v.bRate, newRate, fee.rate)
    else if fee.rateType == 1 || fee.rateType == 2 then
      var timeElapsed := now - v.lastUpdateTimestamp;
      var bTokenDiff := BTokenDiff(v.totalBTokens, newRate, TargetBRate(v.bRate, fee.rate, timeElapsed));
      if bTokenDiff <= 0 && fee.rateType == 1 then 0 else bTokenDiff
    else
      0
  }

  /** The vault after `update_rate`: the new b-token rate and time are recorded,
   *  and on a rise the admin's fee moves from the depositors' b-tokens to the
   *  admin balance. */
  function Refreshed(v: VaultData, fee: Fee, newRate: int, now: nat): (r: VaultData)
    requires newRate > 0 && v.lastUpdateTimestamp <= now
    ensures r.bRate == newRate && r.lastUpdateTimestamp == now && r.totalShares == v.totalShares
    ensures r.totalBTokens + r.adminBalance == v.totalBTokens + v.adminBalance
    ensures newRate <= v.bRate ==> r.totalBTokens == v.totalBTokens && r.adminBalance == v.adminBalance
    ensures newRate > v.bRate ==> r.adminBalance - v.adminBalance == AdminBTokens(v, fee, newRate, now)
  {
    if newRate <= v.bRate then
      v.(lastUpdateTimestamp := now, bRate := newRate)
    else
      var adminBTokens := AdminBTokens(v, fee, newRate, now);
      v.(lastUpdateTimestamp := now, bRate := newRate,
         totalBTokens := v.totalBTokens - adminBTokens, adminBalance := v.adminBalance + adminBTokens)
  }

  /** `update_rate`, field by field on the loaded copy of the vault. */
  method UpdateRate(v: VaultData, fee: Fee, newRate: int, now: nat) returns (r: VaultData)
    requires newRate > 0 && v.lastUpdateTimestamp <= now
    ensures r == Refreshed(v, fee, newRate, now)
  {
    r := v;
    if newRate <= r.bRate {
      r := r.(lastUpdateTimestamp := now);
      r := r.(bRate := newRate);
      return;
    }
    var adminBTokens := AdminBTokens(r, fee, newRate, now);
    r := r.(lastUpdateTimestamp := now);
    r := r.(bRate := newRate);
    if adminBTokens == 0 {
      return;
    }
    r := r.(totalBTokens := r.totalBTokens - adminBTokens);
    r := r.(adminBalance := r.adminBalance + adminBTokens);
  }

  // ---------------------------------------------------------------------
  // Ledger mutations, on the refreshed vault

  /** `deposit`: the b-tokens minted for `amount` (rounded down) and the shares
   *  minted for them (rounded down), or the first check that fails:
   *  `InvalidBTokensMinted` when the amount is worth less than one b-token,
   *  then `InvalidSharesMinted` when those b-tokens are worth less than one
   *  share of a vault that holds shares and b-tokens. */
  function DepositOutcome(v: VaultData, amount: int): (r: Result<(int, int), Error>)
    requires v.Valid()
    ensures r == Failure(InvalidBTokensMinted) <==> amount * SCALAR_12 < v.bRate
    ensures r == Failure(InvalidSharesMinted) <==>
      && v.bRate <= amount * SCALAR_12 && v.totalShares > 0 && v.totalBTokens > 0
      && UnderlyingToBTokensDown(v, amount) * v.totalShares < v.totalBTokens
    ensures r.Failure? ==> r.error == InvalidBTokensMinted || r.error == InvalidSharesMinted
    ensures r.Success? ==> r.value.0 > 0 && r.value.1 > 0
    ensures r.Success? ==> r.value.0 * v.bRate <= amount * SCALAR_12 < r.value.0 * v.bRate + v.bRate
    ensures r.Success? && (v.totalShares == 0 || v.totalBTokens == 0) ==> r.value.1 == r.value.0
    ensures r.Success? && v.totalShares > 0 && v.totalBTokens > 0 ==>
      r.value.1 * v.totalBTokens <= r.value.0 * v.totalShares < r.value.1 * v.totalBTokens + v.totalBTokens
  {
    var bTokens := UnderlyingToBTokensDown(v, amount);
    FloorPositive(bTokens, amount * SCALAR_12, v.bRate);
    if bTokens <= 0 then Failure(InvalidBTokensMinted)
    else
      var shares := BTokensToSharesDown(v, bTokens);
      SharesDownPositive(v, bTokens);
      if shares <= 0 then Failure(InvalidSharesMinted)
      else Success((bTokens, shares))
  }

  /** `withdraw`: the b-tokens burnt for `amount` (rounded up) and the shares
   *  burnt for them (rounded up), or the first check that fails, in source
   *  order: `InvalidBTokensBurnt` for a non-positive amount, then
   *  `InsufficientReserves` when the vault holds fewer shares or b-tokens than
   *  that, then `BalanceError` when the user holds fewer shares.
   *  `InvalidSharesBurnt` cannot arise. */
  function WithdrawOutcome(v: VaultData, userShares: int, amount: int): (r: Result<(int, int), Error>)
    requires v.Valid()
    ensures r == Failure(InvalidBTokensBurnt) <==> amount <= 0
    ensures r != Failure(InvalidSharesBurnt)
    ensures var bTokens := UnderlyingToBTokensUp(v, amount);
      var shares := BTokensToSharesUp(v, bTokens);
      && (amount > 0 ==> (r == Failure(InsufficientReserves) <==> v.totalShares < shares || v.totalBTokens < bTokens))
      && (amount > 0 && shares <= v.totalShares && bTokens <= v.totalBTokens ==>
            (r == Failure(BalanceError) <==> userShares < shares))
      && (r.Success? <==> 0 < amount && shares <= v.totalShares && bTokens <= v.totalBTokens && shares <= userShares)
    ensures r.Success? ==> 0 < r.value.0 <= v.totalBTokens && 0 < r.value.1 <= v.totalShares && r.value.1 <= userShares
    ensures r.Success? ==> r.value.0 * v.bRate - v.bRate < amount * SCALAR_12 <= r.value.0 * v.bRate
    ensures r.Success? ==>
      r.value.1 * v.totalBTokens - v.totalBTokens < r.value.0 * v.totalShares <= r.value.1 * v.totalBTokens
  {
    var bTokens := UnderlyingToBTokensUp(v, amount);
    CeilPositive(bTokens, amount * SCALAR_12, v.bRate);
    if bTokens <= 0 then Failure(InvalidBTokensBurnt)
    else
      var shares := BTokensToSharesUp(v, bTokens);
      SharesUpPositive(v, bTokens);
      if shares <= 0 then Failure(InvalidSharesBurnt)
      else if v.totalShares < shares || v.totalBTokens < bTokens then Failure(InsufficientReserves)
      else if shares > userShares then Failure(BalanceError)
      else Success((bTokens, shares))
  }

  /** `admin_deposit`: the b-tokens credited to the admin (rounded down), or
   *  `InvalidBTokensMinted` when the amount is worth less than one b-token. */
  function AdminDepositOutcome(v: VaultData, amount: int): (r: Result<int, Error>)
    requires v.Valid()
    ensures r == Failure(InvalidBTokensMinted) <==> amount * SCALAR_12 < v.bRate
    ensures r.Failure? ==> r.error == InvalidBTokensMinted
    ensures r.Success? ==> r.value > 0 && r.value * v.bRate <= amount * SCALAR_12 < r.value * v.bRate + v.bRate
  {
    var bTokens := UnderlyingToBTokensDown(v, amount);
    FloorPositive(bTokens, amount * SCALAR_12, v.bRate);
    if bTokens <= 0 then Failure(InvalidBTokensMinted) else Success(bTokens)
  }

  /** `admin_withdraw`: the b-tokens debited from the admin (rounded up), or
   *  `InvalidBTokensBurnt` for a non-positive amount, then `BalanceError` when
   *  they exceed the admin balance. */
  function AdminWithdrawOutcome(v: VaultData, amount: int): (r: Result<int, Error>)
    requires v.Valid()
    ensures r == Failure(InvalidBTokensBurnt) <==> amount <= 0
    ensures amount > 0 ==> (r == Failure(BalanceError) <==> v.adminBalance < UnderlyingToBTokensUp(v, amount))
    ensures r.Failure? ==> r.error == InvalidBTokensBurnt || r.error == BalanceError
    ensures r.Success? ==> 0 < r.value <= v.adminBalance
    ensures r.Success? ==> r.value * v.bRate - v.bRate < amount * SCALAR_12 <= r.value * v.bRate
  {
    var bTokens := UnderlyingToBTokensUp(v, amount);
    CeilPositive(bTokens, amount * SCALAR_12, v.bRate);
    if bTokens <= 0 then Failure(InvalidBTokensBurnt)
    else if bTokens > v.adminBalance then Failure(BalanceError)
    else Success(bTokens)
  }

  /** Positive b-tokens convert to at least one share, rounded down, exactly
   *  when the vault is empty or they are worth a whole share. */
  lemma SharesDownPositive(v: VaultData, bTokens: int)
    requires v.Valid() && bTokens > 0
    ensures BTokensToSharesDown(v, bTokens) > 0 <==>
      v.totalShares == 0 || v.totalBTokens == 0 || bTokens * v.totalShares >= v.totalBTokens
  {
    if v.totalShares != 0 && v.totalBTokens != 0 {
      FloorPositive(BTokensToSharesDown(v, bTokens), bTokens * v.totalShares, v.totalBTokens);
    }
  }

  /** Positive b-tokens always convert to at least one share rounded up, so a
   *  withdrawal never fails with `InvalidSharesBurnt`. */
  lemma SharesUpPositive(v: VaultData, bTokens: int)
    requires v.Valid() && bTokens > 0
    ensures BTokensToSharesUp(v, bTokens) > 0
  {
    if v.totalShares != 0 && v.totalBTokens != 0 {
      MulLeft(bTokens, 1, v.totalShares);
      CeilPositive(BTokensToSharesUp(v, bTokens), bTokens * v.totalShares, v.totalBTokens);
    }
  }

  // ---------------------------------------------------------------------
  // Share balances

  /** The sum of all share balances. */
  ghost function Sum(m: map<Address, int>): int
    decreases |m|
  {
    if |m| == 0 then 0
    else
      var k := Pick(m);
      m[k] + Sum(m - {k})
  }

  /** Some user with a balance. */
  ghost function Pick(m: map<Address, int>): (k: Address)
    requires |m| > 0
    ensures k in m
  {
    var k :| k in m; k
  }

  /** Every balance is non-negative and together they make up `total`. */
  ghost predicate SharesAccounted(m: map<Address, int>, total: int)
  {
    (forall u :: u in m ==> m[u] >= 0) && Sum(m) == total
  }

  /** `get_vault_shares`: a user without a balance holds 0 shares. */
  function SharesOf(m: map<Address, int>, user: Address): int
  {
    if user in m then m[user] else 0
  }

  /** The sum can be split at any key, not only the one it picks. */
  lemma {:induction false} SumRemove(m: map<Address, int>, k: Address)
    requires k in m
    ensures Sum(m) == m[k] + Sum(m - {k})
    decreases |m|
  {
    var j := Pick(m);
    if j != k {
      var mj, mk := m - {j}, m - {k};
      assert mj.Keys == m.Keys - {j} && mk.Keys == m.Keys - {k};
      SumRemove(mj, k);
      SumRemove(mk, j);
      var rest := mj - {k};
      assert rest == mk - {j};
      calc {
        Sum(m);
        m[j] + Sum(mj);
        m[j] + (m[k] + Sum(rest));
        m[k] + (m[j] + Sum(rest));
        m[k] + Sum(mk);
      }
    }
  }

  /** Setting one balance changes the sum by the difference. */
  lemma SumUpdate(m: map<Address, int>, k: Address, x: int)
    ensures Sum(m[k := x]) == Sum(m) - SharesOf(m, k) + x
  {
    SumRemove(m[k := x], k);
    assert m[k := x] - {k} == m - {k};
    if k in m {
      SumRemove(m, k);
    } else {
      assert m - {k} == m;
    }
  }

  /** Non-negative balances have a non-negative sum. */
  lemma {:induction false} SumNonNegative(m: map<Address, int>)
    requires forall u :: u in m ==> m[u] >= 0
    ensures Sum(m) >= 0
    decreases |m|
  {
    if |m| != 0 {
      SumNonNegative(m - {Pick(m)});
    }
  }

  /** No user holds more than the total when the balances are accounted for. */
  lemma ShareAtMostTotal(m: map<Address, int>, total: int, user: Address)
    requires SharesAccounted(m, total)
    ensures 0 <= SharesOf(m, user) <= total
  {
    if user in m {
      SumRemove(m, user);
      SumNonNegative(m - {user});
    } else {
      SumNonNegative(m);
    }
  }

  /** A holding of at most all the shares is worth between nothing and all of
   *  the depositors' b-tokens, and all the shares are worth exactly all of them. */
  lemma SharesValueBounds(v: VaultData, shares: int)
    requires v.Valid() && 0 < shares <= v.totalShares
    ensures 0 <= SharesToBTokensDown(v, shares) <= v.totalBTokens
    ensures shares == v.totalShares ==> SharesToBTokensDown(v, shares) == v.totalBTokens
  {
    var r, s, t := SharesToBTokensDown(v, shares), v.totalShares, v.totalBTokens;
    MulLeft(t, shares, s);
    assert r * s <= t * s;
    CancelLeq(r, t, s);
    MulLeft(shares, 0, t);
    assert -1 * s < r * s;
    CancelLess(-1, r, s);
    if shares == s {
      assert t * s < (r + 1) * s;
      CancelLess(t, r + 1, s);
    }
  }

  /** Converting b-tokens to underlying keeps the sign of a balance: a
   *  non-negative balance is never shown as negative, a negative one (an admin
   *  in debt under a fixed rate) never as non-negative. */
  lemma UnderlyingKeepsSign(v: VaultData, amount: int)
    requires v.bRate > 0
    ensures BTokensToUnderlyingDown(v, amount) >= 0 <==> amount >= 0
  {
    var r := BTokensToUnderlyingDown(v, amount);
    if amount >= 0 {
      MulLeft(v.bRate, 0, amount);
      assert -1 * SCALAR_12 < r * SCALAR_12;
      CancelLess(-1, r, SCALAR_12);
    } else {
      MulLeft(v.bRate, amount, -1);
      assert r * SCALAR_12 < 0 * SCALAR_12;
      CancelLess(r, 0, SCALAR_12);
    }
  }

  // ---------------------------------------------------------------------
  // Properties of the conversions and of fee accrual

  /** Rounding down and rounding up bracket the exact ratio and differ by at
   *  most one unit, for shares and for b-tokens. */
  lemma ConversionsBracket(v: VaultData, amount: int)
    requires v.Valid()
    ensures BTokensToSharesDown(v, amount) <= BTokensToSharesUp(v, amount) <= BTokensToSharesDown(v, amount) + 1
    ensures UnderlyingToBTokensDown(v, amount) <= UnderlyingToBTokensUp(v, amount) <= UnderlyingToBTokensDown(v, amount) + 1
  {
    if v.totalShares != 0 && v.totalBTokens != 0 {
      CeilIsFloorOrNext(amount, v.totalShares, v.totalBTokens);
    }
    var down, up := UnderlyingToBTokensDown(v, amount), UnderlyingToBTokensUp(v, amount);
    CancelLeq(down, up, v.bRate);
    assert (down + 2) * v.bRate == down * v.bRate + 2 * v.bRate;
    CancelLess(up, down + 2, v.bRate);
  }

  /** The conversion tests: 1 b-token at 200.0000001 shares per 100 b-tokens is
   *  2 shares rounded down and 2.0000001 rounded up; either total at zero
   *  converts one for one; 2 shares of that vault are 0.9999999 b-tokens. */
  lemma ConversionExamples()
    ensures BTokensToSharesDown(VaultData(0, 1_000_000_000_000, 200_0000001, 100_0000000, 0), 1_0000000) == 2_0000000
    ensures BTokensToSharesUp(VaultData(0, 1_000_000_000_000, 200_0000001, 100_0000000, 0), 1_0000000) == 2_0000001
    ensures BTokensToSharesDown(VaultData(0, 1_000_000_000_000, 0, 100_0000000, 0), 1_0000000) == 1_0000000
    ensures BTokensToSharesUp(VaultData(0, 1_000_000_000_000, 200_0000000, 0, 0), 1_0000000) == 1_0000000
    ensures SharesToBTokensDown(VaultData(0, 1_000_000_000_000, 200_0000001, 100_0000000, 0), 2_0000000) == 0_9999999
    ensures SharesToBTokensDown(VaultData(0, 1_000_000_000_000, 200_0000001, 0, 0), 2_0000000) == 0
  {
  }

  /** The take-rate fee is never negative, never more than the `rate` share of
   *  the interest earned, and so never more than the depositors' b-tokens. */
  lemma {:induction false} TakeRateFeeBounds(totalBTokens: int, oldRate: int, newRate: int, rate: int)
    requires totalBTokens >= 0 && 0 <= oldRate < newRate && 0 <= rate <= SCALAR_7
    ensures var fee := TakeRateFee(totalBTokens, oldRate, newRate, rate);
            && 0 <= fee <= totalBTokens
            && fee * newRate * SCALAR_7 <= totalBTokens * (newRate - oldRate) * rate
  {
    var grown := newRate - oldRate;
    var interest := MulFloor(totalBTokens, grown, SCALAR_12);
    var taken := MulFloor(interest, rate, SCALAR_7);
    var fee := DivFloor(taken, newRate, SCALAR_12);
    assert totalBTokens * grown >= 0;
    CancelLess(-1, interest, SCALAR_12);
    assert interest * rate >= 0;
    CancelLess(-1, taken, SCALAR_7);
    assert taken * SCALAR_12 >= 0;
    CancelLess(-1, fee, newRate);
    // fee * newRate <= taken * SCALAR_12, taken * SCALAR_7 <= interest * rate,
    // interest * SCALAR_12 <= totalBTokens * grown
    MulLeft(SCALAR_7, fee * newRate, taken * SCALAR_12);
    MulLeft(SCALAR_12, taken * SCALAR_7, interest * rate);
    MulLeft(rate, interest * SCALAR_12, totalBTokens * grown);
    assert fee * newRate * SCALAR_7 <= totalBTokens * grown * rate;
    MulLeft(totalBTokens * grown, rate, SCALAR_7);
    MulLeft(totalBTokens, grown, newRate);
    MulLeft(SCALAR_7, totalBTokens * grown, totalBTokens * newRate);
    assert fee * newRate * SCALAR_7 <= totalBTokens * newRate * SCALAR_7;
    assert (fee * SCALAR_7) * newRate <= (totalBTokens * SCALAR_7) * newRate;
    CancelLeq(fee * SCALAR_7, totalBTokens * SCALAR_7, newRate);
    CancelLeq(fee, totalBTokens, SCALAR_7);
  }

  /** The target b-token rate is never below the current one. */
  lemma TargetBRateAtLeast(bRate: int, rate: int, elapsed: int)
    requires bRate >= 0 && rate >= 0 && elapsed >= 0
    ensures TargetBRate(bRate, rate, elapsed) >= bRate
  {
    var growth := TruncDiv(100_000 * rate * elapsed, SECONDS_PER_YEAR) + SCALAR_12;
    assert 100_000 * rate * elapsed >= 0;
    assert growth >= SCALAR_12;
    MulLeft(bRate, SCALAR_12, growth);
    CancelLeq(bRate, TargetBRate(bRate, rate, elapsed), SCALAR_12);
  }

  /** The b-token difference never exceeds the depositors' b-tokens, and is
   *  not negative once the target rate has been reached. */
  lemma {:induction false} BTokenDiffBounds(totalBTokens: int, newRate: int, targetBRate: int)
    requires totalBTokens >= 0 && newRate > 0 && targetBRate >= 0
    ensures BTokenDiff(totalBTokens, newRate, targetBRate) <= totalBTokens
    ensures targetBRate <= newRate ==> BTokenDiff(totalBTokens, newRate, targetBRate) >= 0
  {
    var excess := MulFloor(totalBTokens, newRate - targetBRate, SCALAR_12);
    var diff := BTokenDiff(totalBTokens, newRate, targetBRate);
    MulLeft(totalBTokens, newRate - targetBRate, newRate);
    assert diff * newRate <= excess * SCALAR_12 <= totalBTokens * (newRate - targetBRate);
    CancelLeq(diff, totalBTokens, newRate);
    if targetBRate <= newRate {
      MulLeft(totalBTokens, 0, newRate - targetBRate);
      CancelLess(-1, excess, SCALAR_12);
      assert excess * SCALAR_12 >= 0;
      CancelLess(-1, diff, newRate);
    }
  }

  /** The admin's fee never exceeds the depositors' b-tokens, and under a take
   *  rate or a capped rate it is never negative: only a fixed rate makes the
   *  admin pay into the vault. */
  lemma AdminFeeBounds(v: VaultData, fee: Fee, newRate: int, now: nat)
    requires v.Valid() && ValidFee(fee) && v.bRate < newRate && v.lastUpdateTimestamp <= now
    ensures AdminBTokens(v, fee, newRate, now) <= v.totalBTokens
    ensures fee.rateType != 2 ==> AdminBTokens(v, fee, newRate, now) >= 0
  {
    if fee.rateType == 0 {
      TakeRateFeeBounds(v.totalBTokens, v.bRate, newRate, fee.rate);
    } else {
      var elapsed := now - v.lastUpdateTimestamp;
      TargetBRateAtLeast(v.bRate, fee.rate, elapsed);
      BTokenDiffBounds(v.totalBTokens, newRate, TargetBRate(v.bRate, fee.rate, elapsed));
    }
  }

  /** Refreshing keeps a valid vault valid and, except under a fixed rate,
   *  never lowers the admin balance. */
  lemma RefreshKeepsValid(v: VaultData, fee: Fee, newRate: int, now: nat)
    requires v.Valid() && ValidFee(fee) && newRate > 0 && v.lastUpdateTimestamp <= now
    ensures Refreshed(v, fee, newRate, now).Valid()
    ensures fee.rateType != 2 ==> Refreshed(v, fee, newRate, now).adminBalance >= v.adminBalance
  {
    if newRate > v.bRate {
      AdminFeeBounds(v, fee, newRate, now);
    }
  }

  /** Refreshing twice at the same rate and time is refreshing once. */
  lemma RefreshIdempotent(v: VaultData, fee: Fee, newRate: int, now: nat)
    requires newRate > 0 && v.lastUpdateTimestamp <= now
    ensures Refreshed(Refreshed(v, fee, newRate, now), fee, newRate, now) == Refreshed(v, fee, newRate, now)
  {
  }

  /** The take-rate test: a 20% take rate on 1000 b-tokens charges 16.6666666
   *  as the b-token rate goes from 1.1 to 1.2, and 39.3333333 more on to 1.5. */
  lemma TakeRateExample()
    ensures Refreshed(VaultData(0, 1_100_000_000_000, 1200_0000000, 1000_0000000, 0), Fee(0, 0_2000000), 1_200_000_000_000, 5)
            == VaultData(5, 1_200_000_000_000, 1200_0000000, 1000_0000000 - 16_6666666, 16_6666666)
    ensures Refreshed(VaultData(5, 1_200_000_000_000, 1200_0000000, 1000_0000000 - 16_6666666, 16_6666666), Fee(0, 0_2000000), 1_500_000_000_000, 10)
            == VaultData(10, 1_500_000_000_000, 1200_0000000, 1000_0000000 - 16_6666666 - 39_3333333, 16_6666666 + 39_3333333)
  {
  }

  /** The fixed-rate test: a 3% fixed rate whose target is missed by less than
   *  one unit still has the admin top the vault up, rounded away from zero:
   *  by 1 on 10 b-tokens and by 2 on 100. */
  lemma FixedRateExample()
    ensures Refreshed(VaultData(0, 1_000_000_000_000, 10_0000000, 10_0000000, 0), Fee(2, 0_0300000), 1_000_000_003_171, 5)
            == VaultData(5, 1_000_000_003_171, 10_0000000, 10_0000000 + 1, -1)
    ensures Refreshed(VaultData(0, 1_000_000_000_000, 10_0000000, 100_0000000, 0), Fee(2, 0_0300000), 1_000_000_003_171, 5).adminBalance == -2
  {
    var target := TargetBRate(1_000_000_000_000, 0_0300000, 5);
    assert target == 1_000_000_004_756 by {
      assert TruncDiv(100_000 * 0_0300000 * 5, SECONDS_PER_YEAR) == 4756;
      assert MulCeil(1_000_000_000_000, 1_000_000_004_756, SCALAR_12) == 1_000_000_004_756;
    }
    assert BTokenDiff(10_0000000, 1_000_000_003_171, target) == -1 by {
      assert MulFloor(10_0000000, -1585, SCALAR_12) == -1;
      assert DivFloor(-1, 1_000_000_003_171, SCALAR_12) == -1;
    }
    assert BTokenDiff(100_0000000, 1_000_000_003_171, target) == -2 by {
      assert MulFloor(100_0000000, -1585, SCALAR_12) == -2;
      assert DivFloor(-2, 1_000_000_003_171, SCALAR_12) == -2;
    }
    assert AdminBTokens(VaultData(0, 1_000_000_000_000, 10_0000000, 10_0000000, 0), Fee(2, 0_0300000), 1_000_000_003_171, 5) == -1;
  }

  /** The capped-rate test: a 5% cap that the vault does not reach over a day
   *  charges nothing. */
  lemma CappedRateExample()
    ensures Refreshed(VaultData(0, 1_000_000_000_000, 1200_0000000, 1000_0000000, 10_0000000), Fee(1, 0_0500000), 1_000_100_000_000, 86400)
            == VaultData(86400, 1_000_100_000_000, 1200_0000000, 1000_0000000, 10_0000000)
  {
    var target := TargetBRate(1_000_000_000_000, 0_0500000, 86400);
    assert target == 1_000_136_986_301;
    assert BTokenDiff(1000_0000000, 1_000_100_000_000, target) < 0;
  }

  // ---------------------------------------------------------------------
  // Properties of the ledger mutations

  /** A non-positive amount is refused by the first check of every mutation. */
  lemma NonPositiveAmountRefused(v: VaultData, userShares: int, amount: int)
    requires v.Valid() && amount <= 0
    ensures DepositOutcome(v, amount) == Failure(InvalidBTokensMinted)
    ensures WithdrawOutcome(v, userShares, amount) == Failure(InvalidBTokensBurnt)
    ensures AdminDepositOutcome(v, amount) == Failure(InvalidBTokensMinted)
    ensures AdminWithdrawOutcome(v, amount) == Failure(InvalidBTokensBurnt)
  {
    var down, up := UnderlyingToBTokensDown(v, amount), UnderlyingToBTokensUp(v, amount);
    MulLeft(SCALAR_12, amount, 0);
    CancelLeq(down, 0, v.bRate);
    CancelLess(up, 1, v.bRate);
  }

  /** A deposit into a vault with shares and b-tokens never lowers the b-tokens
   *  backing each share: the shares are rounded in the vault's favour. */
  lemma DepositKeepsShareValue(v: VaultData, amount: int)
    requires v.Valid() && v.totalShares > 0 && v.totalBTokens > 0 && DepositOutcome(v, amount).Success?
    ensures var (bTokens, shares) := DepositOutcome(v, amount).value;
            v.totalBTokens * (v.totalShares + shares) <= (v.totalBTokens + bTokens) * v.totalShares
  {
  }

  /** A withdrawal never lowers the b-tokens backing each remaining share. */
  lemma WithdrawKeepsShareValue(v: VaultData, userShares: int, amount: int)
    requires v.Valid() && WithdrawOutcome(v, userShares, amount).Success?
    ensures var (bTokens, shares) := WithdrawOutcome(v, userShares, amount).value;
            v.totalBTokens * (v.totalShares - shares) <= (v.totalBTokens - bTokens) * v.totalShares
  {
  }

  /** The shares a deposit mints are, right after it, worth no more b-tokens
   *  than were deposited, so depositing and withdrawing cannot extract value. */
  lemma {:induction false} DepositCannotExtract(v: VaultData, amount: int)
    requires v.Valid() && (v.totalShares > 0 <==> v.totalBTokens > 0)
    requires DepositOutcome(v, amount).Success?
    ensures var (bTokens, shares) := DepositOutcome(v, amount).value;
            var after := v.(totalShares := v.totalShares + shares, totalBTokens := v.totalBTokens + bTokens);
            SharesToBTokensDown(after, shares) <= bTokens
  {
    var (bTokens, shares) := DepositOutcome(v, amount).value;
    var after := v.(totalShares := v.totalShares + shares, totalBTokens := v.totalBTokens + bTokens);
    assert shares * v.totalBTokens <= bTokens * v.totalShares by {
      if v.totalShares == 0 {
        assert v.totalBTokens == 0;
      }
    }
    MintedWithinDeposit(v.totalShares, v.totalBTokens, bTokens, shares, SharesToBTokensDown(after, shares));
  }

  /** The arithmetic of `DepositCannotExtract`: minting `s` shares for `b`
   *  b-tokens at no better than the vault's ratio `t`/`sh` leaves the new
   *  shares worth at most `b`. */
  lemma MintedWithinDeposit(sh: int, t: int, b: int, s: int, out: int)
    requires sh >= 0 && s > 0 && s * t <= b * sh
    requires out * (sh + s) <= s * (t + b)
    ensures out <= b
  {
    assert s * (t + b) == s * t + s * b;
    assert b * (sh + s) == b * sh + b * s;
    CancelLeq(out, b, sh + s);
  }

  /** The stored ledger of the contract: the vault record, the fee
   *  configuration and every user's share balance. */
  class Ledger {
    var vault: VaultData
    var fee: Fee
    var shares: map<Address, int>

    ghost predicate Valid()
      reads this
    {
      vault.Valid() && ValidFee(fee) && SharesAccounted(shares, vault.totalShares)
    }

    /** The state the constructor stores: the pool's b-token rate, the deploy
     *  time and no shares, b-tokens or admin balance. */
    constructor(fee: Fee, bRate: int, now: nat)
      requires ValidFee(fee) && bRate > 0
      ensures Valid()
      ensures this.fee == fee && vault == VaultData(now, bRate, 0, 0, 0) && shares == map[]
    {
      this.fee := fee;
      vault := VaultData(now, bRate, 0, 0, 0);
      shares := map[];
    }

    /** `get_vault_updated`: the stored vault refreshed to the pool's rate; the
     *  refreshed copy is not written back. */
    method GetVaultUpdated(poolRate: int, now: nat) returns (v: VaultData)
      requires Valid() && poolRate > 0 && vault.lastUpdateTimestamp <= now
      ensures v == Refreshed(vault, fee, poolRate, now) && v.Valid()
    {
      v := UpdateRate(vault, fee, poolRate, now);
      RefreshKeepsValid(vault, fee, poolRate, now);
    }

    /** `deposit`: mints shares to `user` for `amount` of underlying, after
     *  refreshing the vault and touching the user's rewards with the totals
     *  from before the deposit. */
    method Deposit(dist: Rewards.Distributor, user: Address, amount: int, poolRate: int, now: nat)
      returns (r: Result<(int, int), Error>)
      requires Valid() && poolRate > 0 && vault.lastUpdateTimestamp <= now && dist.NotAhead(now)
      modifies this, dist
      ensures Valid() && dist.NotAhead(now)
      ensures fee == old(fee) && dist.rewardToken == old(dist.rewardToken)
      ensures var v := Refreshed(old(vault), old(fee), poolRate, now);
        var userShares := SharesOf(old(shares), user);
        && v.Valid()
        && r == DepositOutcome(v, amount)
        && (r.Failure? ==>
              && vault == old(vault) && shares == old(shares)
              && dist.rewardData == old(dist.rewardData) && dist.userRewards == old(dist.userRewards))
        && (r.Success? ==>
              && vault == v.(totalShares := v.totalShares + r.value.1, totalBTokens := v.totalBTokens + r.value.0)
              && shares == old(shares)[user := userShares + r.value.1]
              && dist.rewardData == Rewards.TouchedData(old(dist.rewardToken), old(dist.rewardData), v.totalShares, now)
              && dist.userRewards == Rewards.TouchedUsers(old(dist.rewardToken), old(dist.rewardData),
                                                          old(dist.userRewards), v.totalShares, user, userShares, now))
    {
      var v := GetVaultUpdated(poolRate, now);
      var userShares := SharesOf(shares, user);
      // a failed call is discarded whole by the host, so the checks can run
      // before the user's rewards are brought up to date
      r := DepositOutcome(v, amount);
      if r.Failure? {
        return;
      }
      dist.UpdateRewards(v.totalShares, user, userShares, now);
      var (bTokensAmount, shareAmount) := r.value;
      v := v.(totalShares := v.totalShares + shareAmount);
      v := v.(totalBTokens := v.totalBTokens + bTokensAmount);
      userShares := userShares + shareAmount;
      SumUpdate(shares, user, userShares);
      vault := v;
      shares := shares[user := userShares];
    }

    /** `withdraw`: burns `user`'s shares for `amount` of underlying, after
     *  refreshing the vault and touching the user's rewards with the totals
     *  from before the withdrawal. */
    method Withdraw(dist: Rewards.Distributor, user: Address, amount: int, poolRate: int, now: nat)
      returns (r: Result<(int, int), Error>)
      requires Valid() && poolRate > 0 && vault.lastUpdateTimestamp <= now && dist.NotAhead(now)
      modifies this, dist
      ensures Valid() && dist.NotAhead(now)
      ensures fee == old(fee) && dist.rewardToken == old(dist.rewardToken)
      ensures var v := Refreshed(old(vault), old(fee), poolRate, now);
        var userShares := SharesOf(old(shares), user);
        && v.Valid()
        && r == WithdrawOutcome(v, userShares, amount)
        && (r.Failure? ==>
              && vault == old(vault) && shares == old(shares)
              && dist.rewardData == old(dist.rewardData) && dist.userRewards == old(dist.userRewards))
        && (r.Success? ==>
              && vault == v.(totalShares := v.totalShares - r.value.1, totalBTokens := v.totalBTokens - r.value.0)
              && shares == old(shares)[user := userShares - r.value.1]
              && dist.rewardData == Rewards.TouchedData(old(dist.rewardToken), old(dist.rewardData), v.totalShares, now)
              && dist.userRewards == Rewards.TouchedUsers(old(dist.rewardToken), old(dist.rewardData),
                                                          old(dist.userRewards), v.totalShares, user, userShares, now))
    {
      var v := GetVaultUpdated(poolRate, now);
      var userShares := SharesOf(shares, user);
      // a failed call is discarded whole by the host, so the checks can run
      // before the user's rewards are brought up to date
      r := WithdrawOutcome(v, userShares, amount);
      if r.Failure? {
        return;
      }
      dist.UpdateRewards(v.totalShares, user, userShares, now);
      var (bTokensAmount, shareAmount) := r.value;
      v := v.(totalShares := v.totalShares - shareAmount);
      v := v.(totalBTokens := v.totalBTokens - bTokensAmount);
      userShares := userShares - shareAmount;
      SumUpdate(shares, user, userShares);
      vault := v;
      shares := shares[user := userShares];
    }

    /** `admin_deposit`: credits the admin with b-tokens for `amount`. */
    method AdminDeposit(amount: int, poolRate: int, now: nat) returns (r: Result<int, Error>)
      requires Valid() && poolRate > 0 && vault.lastUpdateTimestamp <= now
      modifies this
      ensures Valid() && fee == old(fee) && shares == old(shares)
      ensures var v := Refreshed(old(vault), old(fee), poolRate, now);
        && v.Valid()
        && r == AdminDepositOutcome(v, amount)
        && (r.Failure? ==> vault == old(vault))
        && (r.Success? ==> vault == v.(adminBalance := v.adminBalance + r.value))
    {
      var v := GetVaultUpdated(poolRate, now);
      r := AdminDepositOutcome(v, amount);
      if r.Success? {
        vault := v.(adminBalance := v.adminBalance + r.value);
      }
    }

    /** `admin_withdraw`: debits b-tokens for `amount` from the admin. */
    method AdminWithdraw(amount: int, poolRate: int, now: nat) returns (r: Result<int, Error>)
      requires Valid() && poolRate > 0 && vault.lastUpdateTimestamp <= now
      modifies this
      ensures Valid() && fee == old(fee) && shares == old(shares)
      ensures var v := Refreshed(old(vault), old(fee), poolRate, now);
        && v.Valid()
        && r == AdminWithdrawOutcome(v, amount)
        && (r.Failure? ==> vault == old(vault))
        && (r.Success? ==> vault == v.(adminBalance := v.adminBalance - r.value) && vault.adminBalance >= 0)
    {
      var v := GetVaultUpdated(poolRate, now);
      r := AdminWithdrawOutcome(v, amount);
      if r.Success? {
        vault := v.(adminBalance := v.adminBalance - r.value);
      }
    }
  }
}
