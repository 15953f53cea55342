/** Results: optional values, and calls that either return or end the process. */
module Wrappers {

  datatype Option<+T> = None | Some(value: T)

  /** Why DUMA (or the hardware) stopped the program. */
  datatype Reason =
    | ZeroSize                   // malloc(0) under strategy 0
    | BadAlignment               // not a power of two
    | NoEmptySlot                // internal error: slot supply exhausted
    | NullSlotWrite              // the split target is a null pointer
    | MmapFailed                 // Page_Create with exitonfail
    | MprotectFailed
    | SlackBelow                 // no man's land below the block overwritten
    | SlackAbove                 // no man's land above the block overwritten
    | NotFromDuma(near: Option<nat>)  // nearest slot, if any
    | AlreadyFreed
    | FreeMismatch
    | NotFromMalloc
    | SegFault                   // an access to a denied or unmapped page
    | DeleteTooDeep              // DUMA_ASSERT on DelPtr
    | NumberTooLong              // internal error printing a number
    | RegionsOverlap             // memcpy and friends

  datatype Outcome<+T> = Done(value: T) | Abort(reason: Reason) {
    predicate IsFailure() { Abort? }

    function PropagateFailure<U>(): Outcome<U>
      requires Abort?
    {
      Abort(reason)
    }

    function Extract(): T
      requires Done?
    {
      value
    }
  }
}
