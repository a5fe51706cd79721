/** Shared vocabulary: optional values, results, and the exceptions the modelled code can raise. */
module Common {

  datatype Option<+T> = None | Some(value: T)

  datatype Result<+T> = Ok(value: T) | Err(error: Error)

  /** One constructor per exception class; the last group are Python's own. */
  datatype Error =
    // _cycle_tracker
    | TasktagShallNotBeNone
    | TasktagShallBeNone
    | InvalidTasktagValue
    // _buffer_manager
    | BufIsFull
    | PayloadSizeExceedsExpectation
    | EntrySizeNotAlign72
    | PushCmdBeforeSetDataBeginOffset
    | CycleIndicatorNotFound
    // executor
    | CmdListNotClear
    | CmdListIsFull
    | HwCmpWithManualMode
    | HwCmpWithHpbRead
    | HwCmpWithReadBuffer
    | ManualRwDataShallAlign4K
    | AutoAndManualMixed
    | PatternModeMixed
    | EhsFeatureNotSupported
    | EhsLengthMismatch
    | ShallSetQdLimit
    | UnidentifiedResponse
    | DllError
    // raised by Python itself
    | IndexError
    | ValueError
    | AttributeError
    | StructError
    | OverflowError
    | BitstructError
    | BufferError
    | KeyError
    | TypeError
    | ZeroDivisionError
}
