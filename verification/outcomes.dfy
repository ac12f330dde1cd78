/** Optional values, the engine's error taxonomy and the HTTP status each
    error is thrown as. */
module Outcomes {

  /** A value that may be absent (`null` / `undefined` in the services). */
  datatype Option<+T> = None | Some(value: T) {

    /** `this ?? fallback`. */
    function GetOr(fallback: T): (r: T)
      ensures Some? ==> r == value
      ensures None? ==> r == fallback
    {
      match this
      case Some(v) => v
      case None => fallback
    }
  }

  /** The exception classes the services throw. */
  datatype Status = NotFound | BadRequest | Conflict | InternalError

  /** Why an operation was refused. */
  datatype Error =
    | UnknownPair            // no pair row for the requested symbol
    | InsufficientLiquidity  // the ladder cannot cover the volume, or the subtotal is 0
    | NotionalTooLow         // the walked subtotal is below the pair's notional
    | EstimateNotFound       // no estimate with this id for this user
    | AlreadySwapped         // the estimate already has a swap
    | EstimateExpired        // the estimate's expiration lies before now
    | InsufficientFunds      // no quote-token balance row, or too little in it
    | BalanceRowMissing      // the ledger transaction could not find a row to update

  function StatusOf(e: Error): Status {
    match e
    case UnknownPair => NotFound
    case InsufficientLiquidity => NotFound
    case NotionalTooLow => BadRequest
    case EstimateNotFound => NotFound
    case AlreadySwapped => Conflict
    case EstimateExpired => BadRequest
    case InsufficientFunds => BadRequest
    case BalanceRowMissing => InternalError
  }

  /** The message the exception carries; empty where the service gives none. */
  function MessageOf(e: Error): string {
    match e
    case InsufficientLiquidity => "Requested volume cannot be covered by available orders"
    case NotionalTooLow => "Notional value is too low"
    case InsufficientFunds => "Insufficient funds"
    case _ => ""
  }

  datatype Result<+T> = Ok(value: T) | Err(error: Error)
}
