/** The contract's error codes (`FeeVaultError`, errors.rs). */
module Errors {

  datatype Error =
    | BalanceError
    | ReserveNotFound
    | ReserveAlreadyExists
    | InvalidAmount
    | InsufficientAccruedFees
    | InvalidFeeRate
    | InsufficientReserves
    | InvalidBTokensMinted
    | InvalidBTokensBurnt
    | InvalidSharesMinted
    | InvalidFeeRateType
    | NoRewardsConfigured
    | InvalidRewardConfig
    | InvalidSharesBurnt
  {
    /** The numeric code the host reports for the error. */
    function Code(): nat
    {
      match this
      case BalanceError => 10
      case ReserveNotFound => 100
      case ReserveAlreadyExists => 101
      case InvalidAmount => 102
      case InsufficientAccruedFees => 103
      case InvalidFeeRate => 104
      case InsufficientReserves => 105
      case InvalidBTokensMinted => 106
      case InvalidBTokensBurnt => 107
      case InvalidSharesMinted => 108
      case InvalidFeeRateType => 109
      case NoRewardsConfigured => 110
      case InvalidRewardConfig => 111
      case InvalidSharesBurnt => 112
    }
  }
}
