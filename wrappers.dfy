/** Failure-compatible results. The C# sources signal errors by throwing; the model
    returns the exception kind instead, and every caller stops at the first failure,
    as an unwinding exception would. State changed before the failure stays changed. */
module Wrappers {

  /** The .NET exceptions the modelled code can raise. */
  datatype Fault =
    | EndOfStream         // BinaryReader ran past the end of its MemoryStream
    | IndexOutOfRange     // IndexOutOfRangeException, thrown explicitly or by an array index
    | ArgumentOutOfRange  // BinaryReader.ReadBytes with a negative count
    | NotImplemented      // long-ack mode
    | InvalidOperation    // reassembling an incomplete fragmented message
    | KeyNotFound         // Dictionary indexer on a missing key
    | NotSupported        // a channel QoS type the connection cannot build

  datatype Option<+T> = None | Some(value: T)

  datatype Result<+T> = Ok(value: T) | Err(fault: Fault) {
    predicate IsFailure() { Err? }

    function PropagateFailure<U>(): Result<U>
      requires Err?
    {
      Err(fault)
    }

    function Extract(): T
      requires Ok?
    {
      value
    }
  }

  /** The result of an operation that returns nothing (a C# `void` method). */
  type Status = Result<()>

  const Done: Status := Ok(())
}
