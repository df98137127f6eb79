/** Failure-compatible result types shared by every module of the adapter model.
    A JavaScript `undefined` becomes `None`; a thrown `Error` becomes `Err`. */
module Wrappers {

  datatype Option<+T> = None | Some(value: T) {
    /** The `??` operator of JavaScript: the value, or the default when absent. */
    function GetOr(default: T): (r: T) {
      match this
      case Some(v) => v
      case None => default
    }
  }

  /** The errors the host adapter raises, one per distinct `throw` site or runtime exception. */
  datatype Error =
    | RangeError                    // a DataView created or read outside the memory buffer
    | SpeakerNull                   // a Line whose speaker slice has a null pointer
    | TextNull                      // a Line whose text slice has a null pointer
    | UnknownTag(tag: int)          // a StepResult tag outside {0, 1, 2, 3}
    | CreateFailed(message: string) // the engine reported an error while creating a context
    | InvalidCallbackHandle         // the engine answered a callback registration with handle 0
    | NoSuchHandle                  // the engine called back with a handle nobody registered
    | Unimplemented                 // marshalSlice / unmarshalSlice
    | AssertionError(message: string)

  datatype Result<+T> = Ok(value: T) | Err(error: Error) {
    predicate IsFailure() {
      Err?
    }

    function PropagateFailure<U>(): Result<U>
      requires Err?
    {
      Err(error)
    }

    function Extract(): T
      requires Ok?
    {
      value
    }
  }
}
