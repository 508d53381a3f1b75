/** The estimated supply APR that the vault summary reports (summary.rs): the
 *  pool's utilisation, its three-segment interest-rate curve, the share of
 *  the borrow rate that suppliers keep, and the vault's fee on top of it. */
module Summary {
  import opened Wrappers
  import opened Storage
  import opened FixedPoint
  import opened Validator
  import Vault
  import Rewards

  /** The utilisation at which the curve's steep third segment begins. */
  const UTIL_KINK: int := 0_9500000

  /** The pool's interest-rate configuration of the reserve: the target
   *  utilisation and the rate parameters, all with 7 decimals. */
  datatype ReserveConfig = ReserveConfig(util: int, rBase: int, rOne: int, rTwo: int, rThree: int)
  {
    /** A positive target utilisation and non-negative rates. */
    predicate Valid()
    {
      0 < util && rBase >= 0 && rOne >= 0 && rTwo >= 0 && rThree >= 0
    }
  }

  /** The pool's reserve state: b-token and d-token supplies and rates (12
   *  decimals) and the interest-rate modifier (7 decimals). */
  datatype ReserveData = ReserveData(bSupply: int, bRate: int, dSupply: int, dRate: int, irMod: int)
  {
    predicate Valid()
    {
      bSupply >= 0 && bRate >= 0 && dSupply >= 0 && dRate >= 0 && irMod >= 0
    }
  }

  /** Borrowed underlying, rounded up. */
  function Liabilities(reserve: ReserveData): int
  {
    MulCeil(reserve.dSupply, reserve.dRate, SCALAR_12)
  }

  /** Supplied underlying, rounded down. */
  function Supplied(reserve: ReserveData): int
  {
    MulFloor(reserve.bSupply, reserve.bRate, SCALAR_12)
  }

  /** The share of supplied underlying that is borrowed, with 7 decimals: zero
   *  exactly when nothing is borrowed, capped at 100%, and otherwise the ratio
   *  rounded up. */
  function Utilization(reserve: ReserveData): (r: int)
    requires reserve.Valid()
    ensures 0 <= r <= SCALAR_7
    ensures r == 0 <==> Liabilities(reserve) == 0
    ensures Liabilities(reserve) != 0 && Liabilities(reserve) >= Supplied(reserve) ==> r == SCALAR_7
    ensures 0 < Liabilities(reserve) < Supplied(reserve) ==>
      r * Supplied(reserve) - Supplied(reserve) < Liabilities(reserve) * SCALAR_7 <= r * Supplied(reserve)
  {
    var liabilities := Liabilities(reserve);
    var supply := Supplied(reserve);
    MulCeilMonotone(0, reserve.dSupply, reserve.dRate, SCALAR_12);
    if liabilities == 0 then 0
    else if liabilities >= supply then SCALAR_7
    else
      var u := DivCeil(liabilities, supply, SCALAR_7);
      DivCeilMonotone(1, liabilities, supply, SCALAR_7);
      assert liabilities * SCALAR_7 < supply * SCALAR_7;
      CancelLess(u, SCALAR_7 + 1, supply);
      u
  }

  /** The borrow rate at utilisation `util`: up to the target utilisation it
   *  climbs from `rBase` by `rOne`, up to 95% by a further `rTwo`, each scaled
   *  by the rate modifier; beyond 95% it climbs by `rThree`, unscaled. */
  function BorrowRate(config: ReserveConfig, util: int, irMod: int): (r: int)
    requires config.Valid() && 0 <= util <= SCALAR_7 && irMod >= 0
    ensures r >= 0
  {
    if util <= config.util then
      var utilScalar := DivCeil(util, config.util, SCALAR_7);
      DivCeilMonotone(0, util, config.util, SCALAR_7);
      var baseRate := MulCeil(utilScalar, config.rOne, SCALAR_7) + config.rBase;
      MulCeilMonotone(0, utilScalar, config.rOne, SCALAR_7);
      MulCeilMonotone(0, baseRate, irMod, SCALAR_7);
      MulCeil(baseRate, irMod, SCALAR_7)
    else if util <= UTIL_KINK then
      var utilScalar := DivCeil(util - config.util, UTIL_KINK - config.util, SCALAR_7);
      DivCeilMonotone(0, util - config.util, UTIL_KINK - config.util, SCALAR_7);
      var baseRate := MulCeil(utilScalar, config.rTwo, SCALAR_7) + config.rOne + config.rBase;
      MulCeilMonotone(0, utilScalar, config.rTwo, SCALAR_7);
      MulCeilMonotone(0, baseRate, irMod, SCALAR_7);
      MulCeil(baseRate, irMod, SCALAR_7)
    else
      var utilScalar := DivCeil(util - UTIL_KINK, 0_0500000, SCALAR_7);
      DivCeilMonotone(0, util - UTIL_KINK, 0_0500000, SCALAR_7);
      var extraRate := MulCeil(utilScalar, config.rThree, SCALAR_7);
      MulCeilMonotone(0, utilScalar, config.rThree, SCALAR_7);
      var intersection := MulCeil(irMod, config.rTwo + config.rOne + config.rBase, SCALAR_7);
      MulCeilMonotone(0, irMod, config.rTwo + config.rOne + config.rBase, SCALAR_7);
      extraRate + intersection
  }

  /** The scaled rate at the end of the first segment. */
  function FirstKinkRate(config: ReserveConfig, irMod: int): int
  {
    MulCeil(config.rOne + config.rBase, irMod, SCALAR_7)
  }

  /** The scaled rate at 95% utilisation. */
  function SecondKinkRate(config: ReserveConfig, irMod: int): int
  {
    MulCeil(config.rTwo + config.rOne + config.rBase, irMod, SCALAR_7)
  }

  /** Within a segment the scaled rate rises with the scalar, from the
   *  segment's floor to `slope` above it. */
  lemma SegmentBounds(scalar1: int, scalar2: int, slope: int, floor: int, top: int, irMod: int)
    requires 0 <= scalar1 <= scalar2 <= SCALAR_7 && slope >= 0 && irMod >= 0 && top == slope + floor
    ensures MulCeil(floor, irMod, SCALAR_7)
         <= MulCeil(MulCeil(scalar1, slope, SCALAR_7) + floor, irMod, SCALAR_7)
         <= MulCeil(MulCeil(scalar2, slope, SCALAR_7) + floor, irMod, SCALAR_7)
         <= MulCeil(top, irMod, SCALAR_7)
  {
    MulCeilMonotone(0, scalar1, slope, SCALAR_7);
    MulCeilMonotone(scalar1, scalar2, slope, SCALAR_7);
    MulCeilMonotone(scalar2, SCALAR_7, slope, SCALAR_7);
    CeilUnits(slope, 1, SCALAR_7);
    var b1, b2 := MulCeil(scalar1, slope, SCALAR_7) + floor, MulCeil(scalar2, slope, SCALAR_7) + floor;
    MulCeilMonotone(floor, b1, irMod, SCALAR_7);
    MulCeilMonotone(b1, b2, irMod, SCALAR_7);
    MulCeilMonotone(b2, slope + floor, irMod, SCALAR_7);
  }

  /** A segment's scalar, the distance into the segment over its width rounded
   *  up, runs from 0 to 100% and rises with the distance. */
  lemma ScalarBounds(d1: int, d2: int, span: int)
    requires 0 <= d1 <= d2 <= span && span > 0
    ensures 0 <= DivCeil(d1, span, SCALAR_7) <= DivCeil(d2, span, SCALAR_7) <= SCALAR_7
  {
    DivCeilMonotone(0, d1, span, SCALAR_7);
    DivCeilMonotone(d1, d2, span, SCALAR_7);
    DivCeilMonotone(d2, span, span, SCALAR_7);
    CeilUnits(0, span, SCALAR_7);
  }

  /** The first segment's scalar runs from 0 to 100% as utilisation runs from
   *  0 to the target. */
  lemma FirstSegment(config: ReserveConfig, u1: int, u2: int, irMod: int)
    requires config.Valid() && 0 <= u1 <= u2 <= config.util && u2 <= SCALAR_7 && irMod >= 0
    ensures MulCeil(config.rBase, irMod, SCALAR_7) <= BorrowRate(config, u1, irMod)
         <= BorrowRate(config, u2, irMod) <= FirstKinkRate(config, irMod)
  {
    ScalarBounds(u1, u2, config.util);
    SegmentBounds(DivCeil(u1, config.util, SCALAR_7), DivCeil(u2, config.util, SCALAR_7),
                  config.rOne, config.rBase, config.rOne + config.rBase, irMod);
  }

  /** The second segment's scalar runs from 0 to 100% as utilisation runs from
   *  the target to 95%. */
  lemma SecondSegment(config: ReserveConfig, u1: int, u2: int, irMod: int)
    requires config.Valid() && config.util < u1 <= u2 <= UTIL_KINK && irMod >= 0
    ensures FirstKinkRate(config, irMod) <= BorrowRate(config, u1, irMod)
         <= BorrowRate(config, u2, irMod) <= SecondKinkRate(config, irMod)
  {
    var span := UTIL_KINK - config.util;
    var d1, d2 := u1 - config.util, u2 - config.util;
    ScalarBounds(d1, d2, span);
    SegmentBounds(DivCeil(d1, span, SCALAR_7), DivCeil(d2, span, SCALAR_7),
                  config.rTwo, config.rOne + config.rBase, config.rTwo + config.rOne + config.rBase, irMod);
  }

  /** Beyond 95% the rate climbs from the second kink. */
  lemma ThirdSegment(config: ReserveConfig, u1: int, u2: int, irMod: int)
    requires config.Valid() && config.util < u1 && UTIL_KINK < u1 <= u2 <= SCALAR_7 && irMod >= 0
    ensures SecondKinkRate(config, irMod) <= BorrowRate(config, u1, irMod) <= BorrowRate(config, u2, irMod)
  {
    var s1, s2 := DivCeil(u1 - UTIL_KINK, 0_0500000, SCALAR_7), DivCeil(u2 - UTIL_KINK, 0_0500000, SCALAR_7);
    DivCeilMonotone(0, u1 - UTIL_KINK, 0_0500000, SCALAR_7);
    DivCeilMonotone(u1 - UTIL_KINK, u2 - UTIL_KINK, 0_0500000, SCALAR_7);
    MulCeilMonotone(0, s1, config.rThree, SCALAR_7);
    MulCeilMonotone(s1, s2, config.rThree, SCALAR_7);
    var sum := config.rTwo + config.rOne + config.rBase;
    assert irMod * sum == sum * irMod;
  }

  /** The end of the first segment is not above the end of the second. */
  lemma FirstKinkBelowSecond(config: ReserveConfig, irMod: int)
    requires config.Valid() && irMod >= 0
    ensures FirstKinkRate(config, irMod) <= SecondKinkRate(config, irMod)
  {
    MulCeilMonotone(config.rOne + config.rBase, config.rTwo + config.rOne + config.rBase, irMod, SCALAR_7);
  }

  /** The borrow rate never falls as utilisation rises. */
  lemma {:induction false} BorrowRateMonotone(config: ReserveConfig, u1: int, u2: int, irMod: int)
    requires config.Valid() && 0 <= u1 <= u2 <= SCALAR_7 && irMod >= 0
    ensures BorrowRate(config, u1, irMod) <= BorrowRate(config, u2, irMod)
  {
    FirstKinkBelowSecond(config, irMod);
    if u1 <= config.util {
      if u2 <= config.util {
        FirstSegment(config, u1, u2, irMod);
      } else {
        FirstSegment(config, u1, u1, irMod);
        if u2 <= UTIL_KINK {
          SecondSegment(config, u2, u2, irMod);
        } else {
          ThirdSegment(config, u2, u2, irMod);
        }
      }
    } else if u1 <= UTIL_KINK {
      if u2 <= UTIL_KINK {
        SecondSegment(config, u1, u2, irMod);
      } else {
        SecondSegment(config, u1, u1, irMod);
        ThirdSegment(config, u2, u2, irMod);
      }
    } else {
      ThirdSegment(config, u1, u2, irMod);
    }
  }

  /** The curve starts at the scaled base rate and meets the first kink at the
   *  target utilisation. */
  lemma BorrowRateAtTarget(config: ReserveConfig, irMod: int)
    requires config.Valid() && irMod >= 0
    ensures BorrowRate(config, 0, irMod) == MulCeil(config.rBase, irMod, SCALAR_7)
    ensures config.util <= SCALAR_7 ==> BorrowRate(config, config.util, irMod) == FirstKinkRate(config, irMod)
  {
    CeilUnits(config.rOne, config.util, SCALAR_7);
    assert DivCeil(0, config.util, SCALAR_7) == 0;
    assert MulCeil(0, config.rOne, SCALAR_7) == 0;
  }

  /** The curve meets the second kink at 95% and ends `rThree` above it at
   *  full utilisation, so the three segments join without a jump. */
  lemma BorrowRateAtKinks(config: ReserveConfig, irMod: int)
    requires config.Valid() && config.util < UTIL_KINK && irMod >= 0
    ensures BorrowRate(config, UTIL_KINK, irMod) == SecondKinkRate(config, irMod)
    ensures BorrowRate(config, SCALAR_7, irMod) == config.rThree + SecondKinkRate(config, irMod)
  {
    CeilUnits(config.rTwo, UTIL_KINK - config.util, SCALAR_7);
    CeilUnits(config.rThree, 0_0500000, SCALAR_7);
    var sum := config.rTwo + config.rOne + config.rBase;
    assert irMod * sum == sum * irMod;
  }

  /** The suppliers' APR: the borrow rate times utilisation, less the backstop's
   *  share, each step rounded down. */
  function SupplyApr(borrowRate: int, util: int, backstopRate: int): (r: int)
    requires borrowRate >= 0 && 0 <= util <= SCALAR_7 && 0 <= backstopRate <= SCALAR_7
    ensures 0 <= r <= MulFloor(borrowRate, util, SCALAR_7) <= borrowRate
  {
    var gross := MulFloor(borrowRate, util, SCALAR_7);
    MulFloorMonotone(0, util, borrowRate, SCALAR_7);
    MulFloorMonotone(util, SCALAR_7, borrowRate, SCALAR_7);
    assert util * borrowRate == borrowRate * util;
    assert SCALAR_7 * borrowRate == borrowRate * SCALAR_7;
    MulFloorMonotone(0, gross, SCALAR_7 - backstopRate, SCALAR_7);
    MulFloorMonotone(SCALAR_7 - backstopRate, SCALAR_7, gross, SCALAR_7);
    assert (SCALAR_7 - backstopRate) * gross == gross * (SCALAR_7 - backstopRate);
    assert SCALAR_7 * gross == gross * SCALAR_7;
    MulFloor(gross, SCALAR_7 - backstopRate, SCALAR_7)
  }

  /** At full utilisation with no backstop share, suppliers earn the borrow rate. */
  lemma FullUtilizationPaysBorrowRate(borrowRate: int)
    requires borrowRate >= 0
    ensures SupplyApr(borrowRate, SCALAR_7, 0) == borrowRate
  {
    assert MulFloor(borrowRate, SCALAR_7, SCALAR_7) == borrowRate;
  }

  /** The APR a depositor can expect under the vault's fee: the take rate keeps
   *  its complement of the supply APR; a cap is a minimum; a fixed rate is paid
   *  whenever the admin can top up or the pool beats it, and otherwise behaves
   *  like a cap; an unknown fee type reports 0. */
  function EstimatedApr(fee: Fee, supplyApr: int, adminBalance: int): (r: int)
    requires fee.rate <= SCALAR_7
    ensures fee.rateType == 0 ==>
      r * SCALAR_7 <= supplyApr * (SCALAR_7 - fee.rate) < r * SCALAR_7 + SCALAR_7
    ensures fee.rateType == 0 && supplyApr >= 0 ==> 0 <= r <= supplyApr
    ensures fee.rateType == 1 || (fee.rateType == 2 && adminBalance <= 0) ==>
      r <= fee.rate && r <= supplyApr && (r == fee.rate || r == supplyApr)
    ensures fee.rateType == 2 && (adminBalance > 0 || fee.rate < supplyApr) ==> r == fee.rate
    ensures fee.rateType > 2 ==> r == 0
  {
    match fee.rateType
    case 0 =>
      TakeRateKeepsShare(supplyApr, fee.rate);
      MulFloor(supplyApr, SCALAR_7 - fee.rate, SCALAR_7)
    case 1 =>
      if supplyApr > fee.rate then fee.rate else supplyApr
    case 2 =>
      if adminBalance > 0 || fee.rate < supplyApr then fee.rate else supplyApr
    case _ => 0
  }

  /** A take rate leaves suppliers a share between nothing and all of a
   *  non-negative APR. */
  lemma TakeRateKeepsShare(supplyApr: int, rate: int)
    requires 0 <= rate <= SCALAR_7
    ensures supplyApr >= 0 ==> 0 <= MulFloor(supplyApr, SCALAR_7 - rate, SCALAR_7) <= supplyApr
  {
    if supplyApr >= 0 {
      MulFloorMonotone(0, supplyApr, SCALAR_7 - rate, SCALAR_7);
      MulFloorMonotone(SCALAR_7 - rate, SCALAR_7, supplyApr, SCALAR_7);
      assert (SCALAR_7 - rate) * supplyApr == supplyApr * (SCALAR_7 - rate);
      assert SCALAR_7 * supplyApr == supplyApr * SCALAR_7;
    }
  }

  /** A fixed-rate vault whose admin has no balance reports what a vault capped
   *  at the same rate would. */
  lemma FixedWithoutBalanceIsCapped(rate: nat, supplyApr: int, adminBalance: int)
    requires rate <= SCALAR_7 && adminBalance <= 0
    ensures EstimatedApr(Fee(2, rate), supplyApr, adminBalance) == EstimatedApr(Fee(1, rate), supplyApr, adminBalance)
  {
  }

  /** The full estimate from the pool's reserve and backstop share: under a
   *  take rate or a cap it is never negative and never above the borrow rate. */
  function PoolEstimatedApr(fee: Fee, adminBalance: int, config: ReserveConfig, reserve: ReserveData, backstopRate: int): (r: int)
    requires ValidFee(fee) && config.Valid() && reserve.Valid() && 0 <= backstopRate <= SCALAR_7
    ensures var util := Utilization(reserve);
      var supplyApr := SupplyApr(BorrowRate(config, util, reserve.irMod), util, backstopRate);
      && r == EstimatedApr(fee, supplyApr, adminBalance)
      && (fee.rateType != 2 ==> 0 <= r <= BorrowRate(config, util, reserve.irMod))
  {
    var util := Utilization(reserve);
    var borrowRate := BorrowRate(config, util, reserve.irMod);
    var supplyApr := SupplyApr(borrowRate, util, backstopRate);
    EstimatedApr(fee, supplyApr, adminBalance)
  }

  /** The interest-rate curve of the summary tests. */
  const TEST_CONFIG := ReserveConfig(0_8000000, 0_0300000, 0_0600000, 0_1200000, 5_0000000)

  /** Reserves of the summary tests at 85%, 70%, 96% and 80% utilisation. */
  const RESERVE_85 := ReserveData(100_0000000, 1_500_000_000_000, 63_7500000, 2_000_000_000_000, 2_5000000)
  const RESERVE_70 := ReserveData(100_0000000, 1_500_000_000_000, 52_5000000, 2_000_000_000_000, 0_7500000)
  const RESERVE_96 := ReserveData(100_0000000, 1_500_000_000_000, 72_0000000, 2_000_000_000_000, 0_7500000)
  const RESERVE_80 := ReserveData(100_0000000, 1_500_000_000_000, 60_0000000, 2_000_000_000_000, 1_0000000)

  /** The test reserves are at exactly the utilisation their comments state. */
  lemma UtilizationExamples()
    ensures Utilization(RESERVE_85) == 0_8500000
    ensures Utilization(RESERVE_70) == 0_7000000
    ensures Utilization(RESERVE_96) == 0_9600000
    ensures Utilization(RESERVE_80) == 0_8000000
  {
    assert Liabilities(RESERVE_85) == 127_5000000 && Supplied(RESERVE_85) == 150_0000000;
    assert Liabilities(RESERVE_70) == 105_0000000 && Supplied(RESERVE_70) == 150_0000000;
    assert Liabilities(RESERVE_96) == 144_0000000 && Supplied(RESERVE_96) == 150_0000000;
    assert Liabilities(RESERVE_80) == 120_0000000 && Supplied(RESERVE_80) == 150_0000000;
  }

  /** The test curve at 85%, in its second segment. */
  lemma BorrowRateAt85()
    ensures BorrowRate(TEST_CONFIG, 0_8500000, 2_5000000) == 0_3250003
  {
  }

  /** The test curve at 96%, in its third segment. */
  lemma BorrowRateAt96()
    ensures BorrowRate(TEST_CONFIG, 0_9600000, 0_7500000) == 1_1575000
  {
  }

  /** The test curve at 70%, in its first segment. */
  lemma BorrowRateAt70()
    ensures BorrowRate(TEST_CONFIG, 0_7000000, 0_7500000) == 0_0618750
  {
  }

  /** The test curve at its target utilisation of 80%. */
  lemma BorrowRateAt80()
    ensures BorrowRate(TEST_CONFIG, 0_8000000, 1_0000000) == 0_0900000
  {
  }

  /** The take-rate tests: at 85% with a 2.5 modifier, a 10% backstop share and
   *  a 10% take rate leave depositors 22.37625%, and neither leaves 27.62502%. */
  lemma TakeRateAprExample()
    ensures PoolEstimatedApr(Fee(0, 0_1000000), 0, TEST_CONFIG, RESERVE_85, 0_1000000) == 0_2237625
    ensures PoolEstimatedApr(Fee(0, 0), 0, TEST_CONFIG, RESERVE_85, 0) == 0_2762502
  {
    assert Utilization(RESERVE_85) == 0_8500000 by { UtilizationExamples(); }
    assert BorrowRate(TEST_CONFIG, 0_8500000, 2_5000000) == 0_3250003 by { BorrowRateAt85(); }
    assert SupplyApr(0_3250003, 0_8500000, 0_1000000) == 0_2486251;
    assert SupplyApr(0_3250003, 0_8500000, 0) == 0_2762502;
  }

  /** The capped test below the cap: at 70% a 4% cap is not reached and
   *  depositors get the supply APR of 3.465%. */
  lemma CappedBelowAprExample()
    ensures PoolEstimatedApr(Fee(1, 0_0400000), 0, TEST_CONFIG, RESERVE_70, 0_2000000) == 0_0346500
  {
    assert Utilization(RESERVE_70) == 0_7000000 by { UtilizationExamples(); }
    assert BorrowRate(TEST_CONFIG, 0_7000000, 0_7500000) == 0_0618750 by { BorrowRateAt70(); }
    assert SupplyApr(0_0618750, 0_7000000, 0_2000000) == 0_0346500;
  }

  /** The capped test above the cap: at 96% suppliers earn 88.896% and the 15%
   *  cap applies. */
  lemma CappedAboveAprExample()
    ensures PoolEstimatedApr(Fee(1, 0_1500000), 0, TEST_CONFIG, RESERVE_96, 0_2000000) == 0_1500000
  {
    assert Utilization(RESERVE_96) == 0_9600000 by { UtilizationExamples(); }
    assert BorrowRate(TEST_CONFIG, 0_9600000, 0_7500000) == 1_1575000 by { BorrowRateAt96(); }
    assert SupplyApr(1_1575000, 0_9600000, 0_2000000) == 0_8889600;
  }

  /** The fixed-rate tests: at 80% suppliers earn 5.76%, below the 7% fixed
   *  rate, which is paid while the admin has a balance to top up from. */
  lemma FixedAprExample()
    ensures PoolEstimatedApr(Fee(2, 0_0700000), 1, TEST_CONFIG, RESERVE_80, 0_2000000) == 0_0700000
    ensures PoolEstimatedApr(Fee(2, 0_0700000), 0, TEST_CONFIG, RESERVE_80, 0_2000000) == 0_0576000
  {
    assert Utilization(RESERVE_80) == 0_8000000 by { UtilizationExamples(); }
    assert BorrowRate(TEST_CONFIG, 0_8000000, 1_0000000) == 0_0900000 by { BorrowRateAt80(); }
    assert SupplyApr(0_0900000, 0_8000000, 0_2000000) == 0_0576000 by {
      assert MulFloor(0_0900000, 0_8000000, SCALAR_7) == 0_0720000;
      assert MulFloor(0_0720000, SCALAR_7 - 0_2000000, SCALAR_7) == 0_0576000;
    }
  }

  /** `VaultSummary`: the fee, the refreshed vault, the estimated APR and the
   *  active reward token with its brought-forward record. */
  datatype VaultSummary = VaultSummary(
    fee: Fee,
    vault: Vault.VaultData,
    estApr: int,
    rewardToken: Option<Address>,
    rewardData: RewardData)

  /** The record reported for the active reward token: all zeros when there is
   *  no active token or no record for it, since the summary cannot hold an
   *  absent value. */
  function SummaryRewardData(rewardToken: Option<Address>, data: map<Address, RewardData>, totalShares: int, now: nat): (r: RewardData)
    requires totalShares >= 0 && Rewards.NotAheadOf(data, now)
    ensures rewardToken.None? || rewardToken.value !in data ==> r == RewardData(0, 0, 0, 0)
    ensures rewardToken.Some? && rewardToken.value in data ==>
      var stored := data[rewardToken.value];
      && r.eps == stored.eps && r.expiration == stored.expiration
      && r.index >= stored.index && r.lastTime <= now
      && Rewards.LoadUpdated(r, totalShares, now) == r
  {
    if rewardToken.Some? && rewardToken.value in data then
      Rewards.LoadUpdated(data[rewardToken.value], totalShares, now)
    else
      RewardData(0, 0, 0, 0)
  }

  /** `VaultSummary::load`, from the stored state and the pool's reserve: the
   *  vault is refreshed to the pool's b-token rate but not written back. */
  function Load(fee: Fee, stored: Vault.VaultData, poolRate: int, rewardToken: Option<Address>,
                rewardData: map<Address, RewardData>, config: ReserveConfig, reserve: ReserveData,
                backstopRate: int, now: nat): (r: VaultSummary)
    requires ValidFee(fee) && stored.Valid() && poolRate > 0 && stored.lastUpdateTimestamp <= now
    requires Rewards.NotAheadOf(rewardData, now)
    requires config.Valid() && reserve.Valid() && 0 <= backstopRate <= SCALAR_7
    ensures r.fee == fee && r.rewardToken == rewardToken
    ensures r.vault == Vault.Refreshed(stored, fee, poolRate, now) && r.vault.Valid()
    ensures r.estApr == PoolEstimatedApr(fee, r.vault.adminBalance, config, reserve, backstopRate)
    ensures r.rewardData == SummaryRewardData(rewardToken, rewardData, r.vault.totalShares, now)
  {
    var vault := Vault.Refreshed(stored, fee, poolRate, now);
    Vault.RefreshKeepsValid(stored, fee, poolRate, now);
    VaultSummary(fee, vault, PoolEstimatedApr(fee, vault.adminBalance, config, reserve, backstopRate),
                 rewardToken, SummaryRewardData(rewardToken, rewardData, vault.totalShares, now))
  }
}
