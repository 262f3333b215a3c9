/** Failures of the farm-staking endpoints. Every failure aborts the whole call, so
    none of the storage writes made before it survive. */
module Outcomes {

  datatype Error =
    | NotAdmin                    // caller lacks admin permissions
    | InvalidToken                // "Invalid token": top-up not paid in the reward token
    | ZeroPerBlockAmount          // "Amount cannot be zero"
    | ZeroMaxApr                  // "Max APR cannot be zero"
    | InvalidMinUnbondEpochs      // "Invalid min unbond epochs"
    | ZeroRewardAmount            // "Cannot produce zero reward amount"
    | AlreadyProducing            // "Producing rewards is already enabled"
    | InvalidMaxAprPercentage     // "Invalid max APR percentage"
    | ZeroDivisionSafetyConstant  // the farm base initialisation refuses a zero scale
    | NotQueried                  // "May only call this function through VM query"

  /** The result of an endpoint that returns nothing. */
  datatype Outcome = Pass | Fail(error: Error)

  /** The result of a step that computes a new value or fails. */
  datatype Result<T> = Success(value: T) | Failure(error: Error) {

    function ToOutcome(): Outcome {
      match this
      case Success(_) => Pass
      case Failure(e) => Fail(e)
    }

    function GetOr(default: T): T {
      match this
      case Success(v) => v
      case Failure(_) => default
    }
  }
}
