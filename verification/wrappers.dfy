/** Failure-compatible wrappers used for the source's `undefined` returns and thrown errors. */
module Wrappers {

  /** `undefined` (None) or a value (Some). */
  datatype Option<+T> = None | Some(value: T) {

    predicate IsFailure() {
      None?
    }

    function PropagateFailure<U>(): Option<U>
      requires None?
    {
      None
    }

    function Extract(): T
      requires Some?
    {
      value
    }
  }

  /** The errors the modelled code throws. */
  datatype Error =
    | NodeNotMapped(name: string)       // ConvertContext.getNode on an unmapped node
    | UnknownMappingMode                // GetVertexAttribute
    | UnknownReferenceMode              // GetVertexAttribute
    | UnknownComponent                  // GetComponents
    | NoSuchBuffer(buffer: nat)         // createBufferView on a buffer that does not exist

  /** A value or the error that the source would have thrown. */
  datatype Result<+R> = Success(value: R) | Failure(error: Error) {

    predicate IsFailure() {
      Failure?
    }

    function PropagateFailure<U>(): Result<U>
      requires Failure?
    {
      Failure(error)
    }

    function Extract(): R
      requires Success?
    {
      value
    }
  }
}
