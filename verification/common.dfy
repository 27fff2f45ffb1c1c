/** Failure-compatible wrappers shared by every controller of the model. */
module Common {

  datatype Option<+T> = None | Some(value: T) {
    function GetOr(default: T): T {
      match this
      case Some(v) => v
      case None => default
    }
  }

  /** The error kinds the controllers report (the HTTP status each one maps to is presentation). */
  datatype Error =
    | NotFound                      // findOrFail / firstOrFail / explicit 404
    | Invalid                       // a request-validation rule failed
    | InsufficientStock(itemId: nat) // "Not enough stock for item ..."
    | AlreadyCompleted              // completeReceiving on a 'Completed' receiving (400)
    | SupplierMismatch(itemId: nat) // createReceiving: item of another supplier (422)

  datatype Result<+T> = Success(value: T) | Failure(error: Error)
}
