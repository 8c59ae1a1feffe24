// Option and Result wrappers: `undefined` and thrown errors of the TypeScript
// server become explicit values.
module Wrappers {

  datatype Option<+T> = None | Some(value: T)
  {
    predicate IsFailure() { None? }

    function PropagateFailure<U>(): Option<U>
      requires None?
    {
      None
    }

    function Extract(): T
      requires Some?
    {
      value
    }

    /** `o ?? d` */
    function GetOr(d: T): T
    {
      if Some? then value else d
    }
  }

  /** A value or the message of the error the source throws. */
  datatype Result<+T> = Ok(value: T) | Err(msg: string)
  {
    predicate IsFailure() { Err? }

    function PropagateFailure<U>(): Result<U>
      requires Err?
    {
      Err(msg)
    }

    function Extract(): T
      requires Ok?
    {
      value
    }
  }

  /** A check that returns nothing or throws. */
  datatype Outcome = Pass | Fail(msg: string)
  {
    predicate IsFailure() { Fail? }

    function PropagateFailure<U>(): Result<U>
      requires Fail?
    {
      Err(msg)
    }
  }
}
