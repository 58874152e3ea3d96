/** Option, Result and the reasons for which a run of the sync engine aborts.
    Every `panic`, `log.Fatal` and `chk(err)` of the Go code ends the whole run;
    here it becomes an `Aborted(reason)` outcome that carries the store as it was
    left at that moment. */
module Wrappers {

  datatype Option<+T> = None | Some(value: T)

  /** Why a run stopped. */
  datatype Abort =
    | StoreError       // a count, find, aggregate, lookup or write on the store failed
    | RpcError         // a call to the node failed (or returned nothing usable)
    | BadType          // a type assertion on a decoded document failed
    | BadHex           // hexutil.MustDecodeUint64 / MustDecodeBig rejected its input
    | ReceiptMismatch  // "invalid receipts len"
    | UnknownHeight    // "unknown height": the stored height has an unexpected type

  datatype Result<+T> = Ok(value: T) | Err(why: Abort)

  datatype Outcome = Completed | Aborted(why: Abort)
}
