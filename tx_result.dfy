/** The outcome of running a transaction atomically. */
module TxResults {
  import Wrappers
  import opened Fs
  import opened TxBuilding

  datatype TxResult =
    | Success(undo: Transaction)
    | TxFailure(txErr: Error)
    | FatalFailure(txErr: Error, rbErr: Error)

  /** `is_success` */
  predicate IsSuccess(r: TxResult) {
    r.Success?
  }

  /** `is_fatal_failure` */
  predicate IsFatalFailure(r: TxResult) {
    r.FatalFailure?
  }

  /** A result is never both a success and a fatal failure. */
  lemma NeverBoth(r: TxResult)
    ensures !(IsSuccess(r) && IsFatalFailure(r))
    ensures IsSuccess(r) || IsFatalFailure(r) || r.TxFailure?
  {
  }

  /** `as_tx_result`: the undo transaction, or the transaction's own error (a rollback error is dropped). */
  function AsTxResult(r: TxResult): (res: Wrappers.Result<Transaction, Error>)
    ensures res.Success? <==> IsSuccess(r)
    ensures res.Success? ==> res.value == r.undo
    ensures res.Failure? ==> res.error == r.txErr
  {
    match r
    case Success(undo) => Wrappers.Success(undo)
    case TxFailure(txErr) => Wrappers.Failure(txErr)
    case FatalFailure(txErr, _) => Wrappers.Failure(txErr)
  }
}
