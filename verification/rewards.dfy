/** The reward distributor (rewards.rs): one active reward token at a time,
 *  streamed to share holders through a lazily advanced reward-per-share index. */
module Rewards {
  import opened Wrappers
  import opened Errors
  import opened Storage
  import opened FixedPoint

  /** Whether `load_updated_reward_data` returns the record as stored: the
   *  emission already ended at the last update, no time has passed, nothing is
   *  emitted, or there are no shares to share it among. */
  predicate Skips(rd: RewardData, totalShares: int, now: nat)
  {
    rd.lastTime >= rd.expiration || now == rd.lastTime || rd.eps == 0 || totalShares == 0
  }

  /** The index grew by `delta`: what `eps` tokens per second over `elapsed`
   *  seconds come to per share, in 7 decimals, rounded down. */
  predicate IndexGrowth(delta: int, elapsed: int, eps: int, totalShares: int)
  {
    delta * totalShares <= elapsed * eps * SCALAR_7 < delta * totalShares + totalShares
  }

  /** No stored record was last updated after `now` (ledger time never runs back). */
  predicate NotAheadOf(data: map<Address, RewardData>, now: nat)
  {
    forall t :: t in data ==> data[t].lastTime <= now
  }

  /** `load_updated_reward_data` on a stored record: brings the index forward to
   *  `now`, counting emission only up to the expiration. */
  function LoadUpdated(rd: RewardData, totalShares: int, now: nat): (r: RewardData)
    requires totalShares >= 0
    requires Skips(rd, totalShares, now) || rd.lastTime <= now
    ensures r.eps == rd.eps && r.expiration == rd.expiration
    ensures Skips(rd, totalShares, now) ==> r == rd
    ensures !Skips(rd, totalShares, now) ==>
      r.lastTime == now &&
      IndexGrowth(r.index - rd.index, Min(now, rd.expiration) - rd.lastTime, rd.eps, totalShares)
    ensures rd.index <= r.index
    ensures rd.lastTime <= now ==> r.lastTime <= now
  {
    if Skips(rd, totalShares, now) then rd
    else
      var maxTimestamp := if now > rd.expiration then rd.expiration else now;
      var emitted := (maxTimestamp - rd.lastTime) * rd.eps;
      var additional := DivFloor(emitted, totalShares, SCALAR_7);
      MulLeft(rd.eps, 0, maxTimestamp - rd.lastTime);
      MulLeft(SCALAR_7, 0, emitted);
      CancelLess(-1, additional, totalShares);
      RewardData(rd.eps, rd.expiration, additional + rd.index, now)
  }

  /** The stored user record for (token, user), if any. */
  function StoredUser(users: map<(Address, Address), UserRewards>, token: Address, user: Address): Option<UserRewards>
  {
    if (token, user) in users then Some(users[(token, user)]) else None
  }

  /** The rewards a user has accrued once synchronised to the global `index`:
   *  the stored accrual plus their shares times the index growth since they
   *  last synchronised, or, with no record, their shares times the whole index
   *  (a historical catch-up), rounded down. */
  function Accrued(stored: Option<UserRewards>, index: int, userShares: int): (r: int)
    ensures stored.Some? && (userShares == 0 || index <= stored.value.index) ==> r == stored.value.accrued
    ensures stored.Some? && userShares != 0 && index > stored.value.index ==>
      (r - stored.value.accrued) * SCALAR_7 <= userShares * (index - stored.value.index)
        < (r - stored.value.accrued) * SCALAR_7 + SCALAR_7
    ensures stored.Some? && userShares >= 0 ==> r >= stored.value.accrued
    ensures stored.None? && userShares == 0 ==> r == 0
    ensures stored.None? && userShares != 0 ==> r * SCALAR_7 <= userShares * index < r * SCALAR_7 + SCALAR_7
  {
    match stored
    case Some(ud) =>
      if userShares != 0 && index > ud.index then
        var toAccrue := MulFloor(userShares, index - ud.index, SCALAR_7);
        assert userShares > 0 ==> toAccrue * SCALAR_7 + SCALAR_7 > 0;
        ud.accrued + toAccrue
      else ud.accrued
    case None =>
      if userShares == 0 then 0 else MulFloor(userShares, index, SCALAR_7)
  }

  /** Whether `update_user_rewards` writes the user record: there is none yet,
   *  the global index moved, or a claim was requested. */
  predicate Writes(stored: Option<UserRewards>, index: int, claim: bool)
  {
    stored.None? || stored.value.index != index || claim
  }

  /** The user map after `update_user_rewards`: on a write the record holds the
   *  global index and the accrual, or zero accrual when the call claims it. */
  function SettledUsers(users: map<(Address, Address), UserRewards>, token: Address, user: Address,
                        index: int, userShares: int, claim: bool): map<(Address, Address), UserRewards>
  {
    var stored := StoredUser(users, token, user);
    if Writes(stored, index, claim) then
      users[(token, user) := UserRewards(index, if claim then 0 else Accrued(stored, index, userShares))]
    else users
  }

  /** The reward map after `update_reward_data` on the active token, if it has a record. */
  function TouchedData(token: Option<Address>, data: map<Address, RewardData>, totalShares: int, now: nat): map<Address, RewardData>
    requires totalShares >= 0 && NotAheadOf(data, now)
  {
    if token.Some? && token.value in data then data[token.value := LoadUpdated(data[token.value], totalShares, now)]
    else data
  }

  /** The user map after `update_rewards` (without claim). */
  function TouchedUsers(token: Option<Address>, data: map<Address, RewardData>, users: map<(Address, Address), UserRewards>,
                        totalShares: int, user: Address, userShares: int, now: nat): map<(Address, Address), UserRewards>
    requires totalShares >= 0 && NotAheadOf(data, now)
  {
    if token.Some? && token.value in data then
      SettledUsers(users, token.value, user, LoadUpdated(data[token.value], totalShares, now).index, userShares, false)
    else users
  }

  /** `calculate_eps`: the whole amount spread evenly over the period, truncated;
   *  refused when that is zero or does not fit in 64 bits. */
  function CalculateEps(amount: int, period: int): (r: Result<nat, Error>)
    requires period > 0
    ensures r.Success? ==> 0 < r.value <= U64_MAX && r.value * period <= amount < r.value * period + period
    ensures r.Failure? ==> r.error == InvalidRewardConfig
    ensures amount < period ==> r.Failure?
    ensures period <= amount < (U64_MAX + 1) * period ==> r.Success?
  {
    var newEps := TruncDiv(amount, period);
    EpsRange(amount, period);
    if newEps <= 0 || newEps > U64_MAX then Failure(InvalidRewardConfig)
    else Success(newEps)
  }

  /** The truncated rate is below one when the amount does not cover one
   *  second of the period, and within 64 bits when the amount is less than
   *  `U64_MAX + 1` periods' worth. */
  lemma EpsRange(amount: int, period: int)
    requires period > 0
    ensures amount < period ==> TruncDiv(amount, period) < 1
    ensures period <= amount < (U64_MAX + 1) * period ==> 0 < TruncDiv(amount, period) <= U64_MAX
  {
    var q := TruncDiv(amount, period);
    if amount < period {
      assert q * period < 1 * period;
      CancelLess(q, 1, period);
    } else if amount < (U64_MAX + 1) * period {
      CancelLess(0, q, period);
      CancelLess(q, U64_MAX + 1, period);
    }
  }

  /** Whether the record describes an emission still running at `now`. */
  predicate Active(rd: RewardData, now: nat)
  {
    rd.expiration > now
  }

  /** What `set_rewards` leaves in the reward map, or the error it aborts with:
   *  an active period of the same token is boosted (remaining emission plus the
   *  new amount over the new period, index kept); otherwise the token starts a
   *  new period from the index of its own earlier record, or 0. */
  function SetRewardsPlan(current: Option<Address>, data: map<Address, RewardData>, totalShares: int,
                          token: Address, amount: int, expiration: nat, now: nat): Result<map<Address, RewardData>, Error>
    requires expiration >= now && totalShares >= 0 && NotAheadOf(data, now)
  {
    var period := expiration - now;
    if period == 0 || amount <= 0 then Failure(InvalidRewardConfig)
    else
      var data1 := TouchedData(current, data, totalShares, now);
      if current.Some? && current.value in data && Active(data1[current.value], now) then
        var cur := data1[current.value];
        if current.value != token || expiration < cur.expiration then Failure(InvalidRewardConfig)
        else
          var eps :- CalculateEps(amount + (cur.expiration - now) * cur.eps, period);
          Success(data1[token := RewardData(eps, expiration, cur.index, now)])
      else
        var data2 := TouchedData(Some(token), data1, totalShares, now);
        var index := if token in data2 then data2[token].index else 0;
        var eps :- CalculateEps(amount, period);
        Success(data2[token := RewardData(eps, expiration, index, now)])
  }

  /** The reward storage of the contract: the active reward token, one global
   *  record per token and one record per (token, user). */
  class Distributor {
    var rewardToken: Option<Address>
    var rewardData: map<Address, RewardData>
    var userRewards: map<(Address, Address), UserRewards>

    /** The state of a freshly deployed contract: no rewards configured. */
    constructor()
      ensures rewardToken == None && rewardData == map[] && userRewards == map[]
    {
      rewardToken := None;
      rewardData := map[];
      userRewards := map[];
    }

    predicate NotAhead(now: nat)
      reads this
    {
      NotAheadOf(rewardData, now)
    }

    /** `load_updated_reward_data`: the stored record brought forward to `now`;
     *  reads storage and never writes it. */
    function LoadUpdatedRewardData(token: Address, totalShares: int, now: nat): (r: Option<RewardData>)
      reads this
      requires totalShares >= 0 && NotAhead(now)
      ensures r.None? <==> token !in rewardData
      ensures r.Some? ==> r.value.index >= rewardData[token].index && r.value.lastTime <= now
      ensures r.Some? ==> LoadUpdated(r.value, totalShares, now) == r.value
    {
      if token in rewardData then Some(LoadUpdated(rewardData[token], totalShares, now)) else None
    }

    /** `update_reward_data`: persists the brought-forward record. */
    method UpdateRewardData(token: Address, totalShares: int, now: nat) returns (r: Option<RewardData>)
      requires totalShares >= 0 && NotAhead(now)
      modifies this
      ensures r == old(LoadUpdatedRewardData(token, totalShares, now))
      ensures rewardData == if r.Some? then old(rewardData)[token := r.value] else old(rewardData)
      ensures rewardToken == old(rewardToken) && userRewards == old(userRewards)
      ensures NotAhead(now)
    {
      r := LoadUpdatedRewardData(token, totalShares, now);
      if r.Some? {
        rewardData := rewardData[token := r.value];
      }
    }

    /** `set_user_rewards`: stores the user's index and either keeps the accrual
     *  or, on a claim, zeroes it and hands it out. */
    method SetUserRewards(token: Address, user: Address, index: int, accrued: int, claim: bool) returns (amount: int)
      modifies this
      ensures amount == if claim then accrued else 0
      ensures userRewards == old(userRewards)[(token, user) := UserRewards(index, if claim then 0 else accrued)]
      ensures rewardToken == old(rewardToken) && rewardData == old(rewardData)
    {
      if claim {
        userRewards := userRewards[(token, user) := UserRewards(index, 0)];
        amount := accrued;
      } else {
        userRewards := userRewards[(token, user) := UserRewards(index, accrued)];
        amount := 0;
      }
    }

    /** `update_user_rewards`: synchronises the user to the global index of
     *  `rd`, returning the amount to pay out (only when claiming). */
    method UpdateUserRewards(token: Address, rd: RewardData, user: Address, userShares: int, claim: bool) returns (amount: int)
      modifies this
      ensures amount == if claim then Accrued(old(StoredUser(userRewards, token, user)), rd.index, userShares) else 0
      ensures userRewards == SettledUsers(old(userRewards), token, user, rd.index, userShares, claim)
      ensures rewardToken == old(rewardToken) && rewardData == old(rewardData)
    {
      if (token, user) in userRewards {
        var userData := userRewards[(token, user)];
        if userData.index != rd.index || claim {
          var accrual := userData.accrued;
          if userShares != 0 && rd.index > userData.index {
            var deltaIndex := rd.index - userData.index;
            var toAccrue := MulFloor(userShares, deltaIndex, SCALAR_7);
            accrual := accrual + toAccrue;
          }
          amount := SetUserRewards(token, user, rd.index, accrual, claim);
          return;
        }
        return 0;
      } else if userShares == 0 {
        amount := SetUserRewards(token, user, rd.index, 0, claim);
      } else {
        var toAccrue := MulFloor(userShares, rd.index, SCALAR_7);
        amount := SetUserRewards(token, user, rd.index, toAccrue, claim);
      }
    }

    /** `update_rewards`: brings the active token's index forward and
     *  synchronises the user, using the share totals from before the caller's
     *  own change. */
    method UpdateRewards(totalShares: int, user: Address, userShares: int, now: nat)
      requires totalShares >= 0 && NotAhead(now)
      modifies this
      ensures NotAhead(now)
      ensures rewardToken == old(rewardToken)
      ensures rewardData == TouchedData(old(rewardToken), old(rewardData), totalShares, now)
      ensures userRewards == TouchedUsers(old(rewardToken), old(rewardData), old(userRewards), totalShares, user, userShares, now)
    {
      if rewardToken.Some? {
        var rd := UpdateRewardData(rewardToken.value, totalShares, now);
        if rd.Some? {
          var _ := UpdateUserRewards(rewardToken.value, rd.value, user, userShares, false);
        }
      }
    }

    /** `claim_rewards`: pays out everything the user accrued for the active
     *  token and zeroes the stored accrual; aborts when no reward was ever
     *  configured. The transfer to the recipient is not modelled. */
    method ClaimRewards(totalShares: int, user: Address, userShares: int, now: nat) returns (r: Result<int, Error>)
      requires totalShares >= 0 && NotAhead(now)
      modifies this
      ensures NotAhead(now)
      ensures rewardToken == old(rewardToken)
      ensures old(rewardToken).None? || old(rewardToken).value !in old(rewardData) ==>
        r == Failure(NoRewardsConfigured) && rewardData == old(rewardData) && userRewards == old(userRewards)
      ensures old(rewardToken).Some? && old(rewardToken).value in old(rewardData) ==>
        var t := old(rewardToken).value;
        var rd := LoadUpdated(old(rewardData)[t], totalShares, now);
        && r == Success(Accrued(old(StoredUser(userRewards, t, user)), rd.index, userShares))
        && rewardData == old(rewardData)[t := rd]
        && userRewards == old(userRewards)[(t, user) := UserRewards(rd.index, 0)]
    {
      if rewardToken.Some? {
        var rd := UpdateRewardData(rewardToken.value, totalShares, now);
        if rd.Some? {
          var amount := UpdateUserRewards(rewardToken.value, rd.value, user, userShares, true);
          // a positive amount is transferred to the recipient here
          return Success(amount);
        }
      }
      return Failure(NoRewardsConfigured);
    }

    /** `set_rewards`: configures or boosts the reward emission. The token
     *  transfer into the contract is not modelled; a failed call leaves storage
     *  as it was, as the host discards the writes of an aborted call. */
    method SetRewards(totalShares: int, token: Address, amount: int, expiration: nat, now: nat) returns (r: Outcome<Error>)
      requires expiration >= now && totalShares >= 0 && NotAhead(now)
      modifies this
      ensures NotAhead(now)
      ensures userRewards == old(userRewards)
      ensures var plan := SetRewardsPlan(old(rewardToken), old(rewardData), totalShares, token, amount, expiration, now);
        && (plan.Failure? ==> r == Fail(plan.error) && rewardData == old(rewardData) && rewardToken == old(rewardToken))
        && (plan.Success? ==> r == Pass && rewardData == plan.value && rewardToken == Some(token))
    {
      var rewardPeriod := expiration - now;
      if rewardPeriod == 0 || amount <= 0 {
        return Fail(InvalidRewardConfig);
      }
      var saved := rewardData;
      if rewardToken.Some? {
        var curToken := rewardToken.value;
        var cur := UpdateRewardData(curToken, totalShares, now);
        if cur.Some? && cur.value.expiration > now {
          if curToken != token || expiration < cur.value.expiration {
            rewardData := saved;
            return Fail(InvalidRewardConfig);
          }
          var timeLeft := cur.value.expiration - now;
          var eps := CalculateEps(amount + timeLeft * cur.value.eps, rewardPeriod);
          if eps.Failure? {
            rewardData := saved;
            return Fail(eps.error);
          }
          rewardData := rewardData[token := RewardData(eps.value, expiration, cur.value.index, now)];
          return Pass;
        }
      }
      var prior := UpdateRewardData(token, totalShares, now);
      var index := if prior.Some? then prior.value.index else 0;
      var eps := CalculateEps(amount, rewardPeriod);
      if eps.Failure? {
        rewardData := saved;
        return Fail(eps.error);
      }
      rewardData := rewardData[token := RewardData(eps.value, expiration, index, now)];
      rewardToken := Some(token);
      return Pass;
    }
  }
}

/** Properties of the reward index, per-user accrual and reward configuration. */
module RewardsProofs {
  import opened Wrappers
  import opened Errors
  import opened Storage
  import opened FixedPoint
  import opened Rewards

  /** Bringing a record forward twice to the same time changes nothing the
   *  second time. */
  lemma LoadUpdatedIdempotent(rd: RewardData, totalShares: int, now: nat)
    requires totalShares >= 0 && rd.lastTime <= now
    ensures LoadUpdated(LoadUpdated(rd, totalShares, now), totalShares, now) == LoadUpdated(rd, totalShares, now)
  {
  }

  /** The later the index is brought forward, the larger it is. */
  lemma {:induction false} LoadUpdatedMonotoneInTime(rd: RewardData, totalShares: int, now1: nat, now2: nat)
    requires totalShares >= 0 && rd.lastTime <= now1 <= now2
    ensures LoadUpdated(rd, totalShares, now1).index <= LoadUpdated(rd, totalShares, now2).index
  {
    if !Skips(rd, totalShares, now1) {
      var e1 := Min(now1, rd.expiration) - rd.lastTime;
      var e2 := Min(now2, rd.expiration) - rd.lastTime;
      MulLeft(rd.eps, e1, e2);
      assert e1 * rd.eps <= e2 * rd.eps;
      DivFloorMonotone(e1 * rd.eps, e2 * rd.eps, totalShares, SCALAR_7);
    }
  }

  /** Bringing the index forward in two steps, with an extra touch at `mid`,
   *  yields at most one unit less than a single step, and never more. */
  lemma {:induction false} LoadUpdatedSplit(rd: RewardData, totalShares: int, mid: nat, now: nat)
    requires totalShares >= 0 && rd.lastTime <= mid <= now
    ensures var one := LoadUpdated(rd, totalShares, now);
            var two := LoadUpdated(LoadUpdated(rd, totalShares, mid), totalShares, now);
            two.index <= one.index <= two.index + 1
  {
    var m := LoadUpdated(rd, totalShares, mid);
    if !Skips(rd, totalShares, mid) && !Skips(m, totalShares, now) {
      var e1 := mid - rd.lastTime;
      var e2 := Min(now, rd.expiration) - mid;
      assert Min(mid, rd.expiration) == mid;
      assert e1 * rd.eps + e2 * rd.eps == (e1 + e2) * rd.eps;
      DivFloorSplit(e1 * rd.eps, e2 * rd.eps, totalShares, SCALAR_7);
    }
  }

  /** Two users synchronised at the same index, one holding `k` times the
   *  shares of the other, accrue in ratio `k` up to `k - 1` units of rounding. */
  lemma {:induction false} ProportionalAccrual(userIndex: int, index: int, shares: int, k: int)
    requires k >= 1 && shares > 0
    ensures var small := Accrued(Some(UserRewards(userIndex, 0)), index, shares);
            var large := Accrued(Some(UserRewards(userIndex, 0)), index, k * shares);
            k * small <= large <= k * small + k - 1
  {
    if index > userIndex {
      MulFloorScale(k, shares, index - userIndex, SCALAR_7);
    }
  }

  /** Claiming right after a claim pays nothing: the accrual is never counted twice. */
  lemma SecondClaimPaysNothing(rd: RewardData, totalShares: int, now: nat, userShares: int)
    requires totalShares >= 0 && rd.lastTime <= now
    ensures var rd1 := LoadUpdated(rd, totalShares, now);
            var rd2 := LoadUpdated(rd1, totalShares, now);
            Accrued(Some(UserRewards(rd1.index, 0)), rd2.index, userShares) == 0
  {
    LoadUpdatedIdempotent(rd, totalShares, now);
  }

  /** Every failure of `set_rewards` is `InvalidRewardConfig`, and an empty
   *  period or a non-positive amount is refused before anything else; a
   *  success stores a record for the token that starts now, ends at the new
   *  expiration with a 64-bit emission rate, and no token's index falls. */
  lemma SetRewardsKeepsIndices(current: Option<Address>, data: map<Address, RewardData>, totalShares: int,
                               token: Address, amount: int, expiration: nat, now: nat)
    requires expiration >= now && totalShares >= 0 && NotAheadOf(data, now)
    ensures var plan := SetRewardsPlan(current, data, totalShares, token, amount, expiration, now);
      && (amount <= 0 || expiration == now ==> plan == Failure(InvalidRewardConfig))
      && (plan.Failure? ==> plan.error == InvalidRewardConfig)
      && (plan.Success? ==>
            && plan.value.Keys == data.Keys + {token}
            && plan.value[token].lastTime == now
            && plan.value[token].expiration == expiration
            && 0 < plan.value[token].eps <= U64_MAX
            && (forall t :: t in data ==> plan.value[t].index >= data[t].index))
  {
  }

  /** While a period is active only the same token with an expiration no
   *  earlier than the current one is accepted, and then exactly when the
   *  remaining emission plus the new amount over the new period is a valid
   *  rate; the boost keeps the index and stores that rate. */
  lemma SetRewardsBoostsActivePeriod(current: Address, data: map<Address, RewardData>, totalShares: int,
                                     token: Address, amount: int, expiration: nat, now: nat)
    requires expiration > now && amount > 0 && totalShares >= 0 && NotAheadOf(data, now)
    requires current in data && Active(LoadUpdated(data[current], totalShares, now), now)
    ensures var cur := LoadUpdated(data[current], totalShares, now);
            var eps := CalculateEps(amount + (cur.expiration - now) * cur.eps, expiration - now);
            var plan := SetRewardsPlan(Some(current), data, totalShares, token, amount, expiration, now);
            && (token != current || expiration < cur.expiration ==> plan == Failure(InvalidRewardConfig))
            && (plan.Success? <==> token == current && cur.expiration <= expiration && eps.Success?)
            && (plan.Success? ==>
                  && eps.value * (expiration - now) <= amount + (cur.expiration - now) * cur.eps
                  && plan.value == data[token := RewardData(eps.value, expiration, cur.index, now)])
  {
  }

  /** With no active period the token starts afresh, exactly when the new
   *  amount over the period is a valid rate: its index carries over from its
   *  own earlier record (brought forward), or starts at 0, and the rate is the
   *  new amount over the period. */
  lemma {:induction false} SetRewardsStartsNewPeriod(current: Option<Address>, data: map<Address, RewardData>, totalShares: int,
                                  token: Address, amount: int, expiration: nat, now: nat)
    requires expiration >= now && totalShares >= 0 && NotAheadOf(data, now)
    requires current.None? || current.value !in data || !Active(LoadUpdated(data[current.value], totalShares, now), now)
    ensures var plan := SetRewardsPlan(current, data, totalShares, token, amount, expiration, now);
            && (plan.Success? <==> 0 < amount && now < expiration && CalculateEps(amount, expiration - now).Success?)
            && (plan.Success? ==>
                  && plan.value[token].eps == CalculateEps(amount, expiration - now).value
                  && plan.value[token].eps * (expiration - now) <= amount
                  && plan.value[token].index == (if token in data then LoadUpdated(data[token], totalShares, now).index else 0))
  {
    if current.Some? && current.value in data && current.value == token {
      LoadUpdatedIdempotent(data[token], totalShares, now);
    }
  }

  /** The numbers of the index and accrual tests: 1234 s at 0.1 token/s over
   *  150 shares takes the index from 22222 to 8248888; a user with 9 shares
   *  synchronised at 11111 with 3 accrued then holds 7.4139996. A user without a
   *  record who held 9 shares from the start catches up 31.1094 at index 34566000. */
  lemma IndexAndAccrualExamples()
    ensures LoadUpdated(RewardData(1_000_000, 1713139200 + 604800, 22222, 1713139200), 150_0000000, 1713139200 + 1234)
            == RewardData(1_000_000, 1713139200 + 604800, 8248888, 1713139200 + 1234)
    ensures Accrued(Some(UserRewards(11111, 3)), 8248888, 9_0000000) == 7_4139996
    ensures Accrued(None, 34566000, 9_0000000) == 31_1094000
    ensures Accrued(None, 34588222, 0) == 0
    ensures Accrued(Some(UserRewards(22223, 3)), 22222, 9_0000000) == 3
  {
  }

  /** The emission-rate tests: 100000 tokens over 30 days, the boost of an
   *  active 0.1 token/s period with 7 days left, 100000 tokens over 180 days,
   *  and the refused zero and over-64-bit rates. */
  lemma EpsExamples()
    ensures CalculateEps(100_000_0000000, 30 * 86400) == Success(0_0385802)
    ensures CalculateEps(100_000_0000000 + 604800 * 0_1000000, 30 * 86400) == Success(0_0385802 + 0_0233333)
    ensures CalculateEps(100_000_0000000, 180 * 86400) == Success(0_0064300)
    ensures CalculateEps(1_0000000, 1_0000001) == Failure(InvalidRewardConfig)
    ensures CalculateEps(0x7FFF_FFFF_FFFF_FFFF_FFFF_FFFF_FFFF_FFFF / 2, 10) == Failure(InvalidRewardConfig)
    ensures CalculateEps(100 + 10000 * 100, 30 * 86400) == Failure(InvalidRewardConfig)
  {
  }
}
