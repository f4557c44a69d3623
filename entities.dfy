/** The records of the balance engine: accounts, audit rows, the response of an
    update, and the error taxonomy. Money is held in integer cents, since the
    store's columns are decimal(18,2). */
module Entities {

  datatype Option<T> = None | Some(value: T) {
    function GetOr(default: T): T {
      match this
      case Some(v) => v
      case None => default
    }
  }

  /** What an operation returns: a value, or the exception it throws. */
  datatype Result<T> = Ok(value: T) | Err(error: Error)

  datatype TxType = Deposit | Withdraw

  /** An account row: its key, its balance in cents and its optimistic-lock version. */
  datatype Account = Account(accountId: string, balance: int, version: int)

  /** An immutable audit row. `id` is the auto-increment key (1, 2, ...);
      `version` is the account's version after this mutation. */
  datatype TxRecord = TxRecord(
    id: nat,
    accountId: string,
    amount: int,
    txType: TxType,
    balanceBefore: int,
    balanceAfter: int,
    version: int,
    idempotencyKey: Option<string>)

  /** The response of an update request. */
  datatype Response = Response(
    success: bool,
    transactionId: nat,
    balanceAfter: int,
    version: int,
    wasRetried: bool)

  /** The body of an update request: a positive amount, a type, and the
      optional idempotency key callers send with it. */
  datatype UpdateBalanceDto = UpdateBalanceDto(amount: int, txType: TxType, idempotencyKey: Option<string>)

  /** Every failure the engine can raise. */
  datatype Error =
    | AccountNotFound(accountId: string)   // terminal: the caller must fix the id
    | InsufficientFunds                    // terminal: business-rule violation
    | VersionConflict                      // transient: a concurrent writer won the race
    | DuplicateKey                         // transient: the store's uniqueness constraint on the idempotency key
    | NegativeBalance                      // the store's check constraint balance >= 0, on account creation
    | ConcurrencyExhausted(maxRetries: int) // every permitted attempt failed retryably
    | Unexpected                           // the coordinator's fallback when no attempt ran
  {
    /** The coordinator retries every error except the two terminal ones. */
    predicate Retryable() {
      !(AccountNotFound? || InsufficientFunds?)
    }
  }
}
