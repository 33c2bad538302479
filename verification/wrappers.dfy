/** The optional-value datatype shared by the ledger, the payload parser and the scan screen. */
module Wrappers {

  /** An optional value: an absent JavaScript value (`undefined`, or `null` where
      the two behave alike) is `None`. */
  datatype Option<+T> = None | Some(value: T) {

    /** Returns the value in `Some`, or `default` when absent */
    function GetOr(default: T): T {
      match this
      case Some(v) => v
      case None => default
    }
  }
}
