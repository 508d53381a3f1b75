/** Input checks that abort a call with a chosen error (validator.rs). */
module Validator {
  import opened Wrappers
  import opened Errors
  import opened Storage
  import opened FixedPoint

  /** A fee the contract accepts: a rate of at most 100% and a known rate type. */
  predicate ValidFee(fee: Fee)
  {
    fee.rate <= SCALAR_7 && fee.rateType <= 2
  }

  /** `require_positive`: aborts with `err` exactly when the amount is not positive. */
  function RequirePositive(amount: int, err: Error): (r: Outcome<Error>)
    ensures r.Pass? <==> amount > 0
    ensures r.Fail? ==> r.error == err
  {
    if amount <= 0 then Fail(err) else Pass
  }

  /** `require_valid_fee`: the rate bound is checked before the rate type. */
  function RequireValidFee(fee: Fee): (r: Outcome<Error>)
    ensures r.Pass? <==> ValidFee(fee)
    ensures fee.rate > SCALAR_7 ==> r == Fail(InvalidFeeRate)
    ensures fee.rate <= SCALAR_7 && fee.rateType > 2 ==> r == Fail(InvalidFeeRateType)
  {
    if fee.rate > 10_000_000 then Fail(InvalidFeeRate)
    else if fee.rateType > 2 then Fail(InvalidFeeRateType)
    else Pass
  }

  /** The boundary rates: 0 and exactly 100% are accepted for every rate type,
   *  one unit above 100% is refused with the rate error even when the rate type
   *  is also out of range. */
  lemma FeeBoundaries(rateType: nat)
    ensures rateType <= 2 ==> RequireValidFee(Fee(rateType, 0)) == Pass
    ensures rateType <= 2 ==> RequireValidFee(Fee(rateType, 10_000_000)) == Pass
    ensures RequireValidFee(Fee(rateType, 10_000_001)).error.Code() == 104
    ensures RequireValidFee(Fee(3, 0)).error.Code() == 109
  {
  }
}
