/** The records the contract keeps in ledger storage. */
module Storage {

  /** An account or contract address (users, reward tokens). */
  datatype Address = Address(id: nat)

  /** The fee configuration: `rateType` 0 is a take rate, 1 a capped rate and
   *  2 a fixed rate; `rate` has 7 decimals. Both are unsigned 32-bit values. */
  datatype Fee = Fee(rateType: nat, rate: nat)

  /** The global record of one reward token: emission per second (u64), end of
   *  emission, cumulative reward per share (7 decimals) and the time the index
   *  was last brought forward. */
  datatype RewardData = RewardData(eps: nat, expiration: nat, index: int, lastTime: nat)

  /** One user's record for one reward token: the global index it was last
   *  synchronised to and the rewards accrued but not yet claimed. */
  datatype UserRewards = UserRewards(index: int, accrued: int)
}
